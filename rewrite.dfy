/** The text substitution one rewriting pass makes: the atomic group `(?>BODY)` becomes
    `(?:(?=(?<$AG$n>BODY))\k<$AG$n>)`, a lookahead that captures the body under a
    numbered marker name followed by a backreference to that capture. */
module Rewrite {
  import opened Tokens
  import opened ClassDepth

  function DigitChar(d: nat): (c: char)
    requires d < 10
  {
    ['0', '1', '2', '3', '4', '5', '6', '7', '8', '9'][d]
  }

  /** The decimal spelling of `n`, as a template literal prints a non-negative integer. */
  function Decimal(n: nat): (ds: seq<char>)
    ensures |ds| > 0
    ensures forall q :: 0 <= q < |ds| ==> IsDigit(ds[q])
    decreases n
  {
    if n < 10 then [DigitChar(n)] else Decimal(n / 10) + [DigitChar(n % 10)]
  }

  /** The value of a run of decimal digits. */
  function DecimalValue(ds: seq<char>): (n: nat)
    requires forall q :: 0 <= q < |ds| ==> IsDigit(ds[q])
    decreases |ds|
  {
    if ds == [] then 0
    else
      assert IsDigit(ds[|ds| - 1]);
      DecimalValue(ds[..|ds| - 1]) * 10 + (ds[|ds| - 1] as int - '0' as int)
  }

  /** Reading back the digits of `n` gives `n`, and there is no leading zero unless `n` is 0. */
  lemma {:induction false} DecimalRoundTrip(n: nat)
    ensures DecimalValue(Decimal(n)) == n
    ensures n > 0 ==> Decimal(n)[0] != '0'
    decreases n
  {
    if n >= 10 {
      DecimalRoundTrip(n / 10);
      var ds := Decimal(n);
      assert ds[..|ds| - 1] == Decimal(n / 10);
    }
  }

  /** The capture name of the `n`-th rewrite. */
  function Marker(n: nat): (m: seq<char>)
    ensures |m| > 4 && m[..4] == "$AG$" && m[4..] == Decimal(n)
  {
    "$AG$" + Decimal(n)
  }

  /** Different rewrites get different capture names, so each `\k<$AG$n>` refers to the
      lookahead of its own rewrite. */
  lemma {:induction false} MarkerInjective(n: nat, k: nat)
    ensures Marker(n) == Marker(k) ==> n == k
  {
    DecimalRoundTrip(n);
    DecimalRoundTrip(k);
    if Marker(n) == Marker(k) {
      assert Marker(n)[4..] == Marker(k)[4..];
    }
  }

  /** No character of a marker name can start a group, an escape or a class, or end a class. */
  predicate Inert(cs: seq<char>)
  {
    forall q :: 0 <= q < |cs| ==> cs[q] != '(' && cs[q] != '\\' && cs[q] != '[' && cs[q] != ']'
  }

  lemma {:induction false} MarkerInert(n: nat)
    ensures Inert(Marker(n))
  {
    var m := Marker(n);
    forall q | 0 <= q < |m|
      ensures m[q] != '(' && m[q] != '\\' && m[q] != '[' && m[q] != ']'
    {
      if q >= 4 {
        assert m[q] == m[4..][q - 4];
      }
    }
  }

  /** The text put in place of `(?>`. */
  function OpenText(n: nat): (text: seq<char>)
  {
    "(?:(?=(?<" + Marker(n) + ">"
  }

  /** The text put in place of the `)` that closed the group. */
  function CloseText(n: nat): (text: seq<char>)
  {
    "))\\k<" + Marker(n) + ">)"
  }

  /** The pattern after rewriting the atomic group whose `(?>` starts at `a` and whose
      `)` is at `p`, using marker number `n`. */
  function Rewritten(s: seq<char>, a: nat, p: nat, n: nat): (r: seq<char>)
    requires a + 3 <= p < |s|
  {
    s[..a] + OpenText(n) + s[a + 3..p] + CloseText(n) + s[p + 1..]
  }

  /** The rewrite keeps the text before the group, the body and the text after the group
      verbatim, and puts exactly the two wrapper texts around the body. */
  lemma {:induction false} RewrittenShape(s: seq<char>, a: nat, p: nat, n: nat)
    requires a + 3 <= p < |s|
    ensures var r := Rewritten(s, a, p, n);
      && var o := a + |OpenText(n)|;
      && var c := o + (p - a - 3);
      && |r| == |s| - 4 + |OpenText(n)| + |CloseText(n)|
      && r[..a] == s[..a]
      && r[a..o] == OpenText(n)
      && r[o..c] == s[a + 3..p]
      && r[c..c + |CloseText(n)|] == CloseText(n)
      && r[c + |CloseText(n)|..] == s[p + 1..]
  {
  }

  /** The tokens of the text put in place of `(?>`: three group starts, then plain characters. */
  function OpenTokens(n: nat): (ts: seq<Token>)
  {
    [GroupStart(':'), GroupStart('='), GroupStart('<')] + Chars(Marker(n) + ">")
  }

  /** The tokens of the text put in place of the closing `)`: two `)`, the escape `\k`, then
      plain characters. */
  function CloseTokens(n: nat): (ts: seq<Token>)
  {
    [Char(')'), Char(')'), Escaped('k')] + Chars("<" + Marker(n) + ">)")
  }

  lemma {:induction false} LexGroupStartText(d: char, v: seq<char>)
    requires IsGroupDelim(d)
    ensures Lex(['(', '?', d] + v) == [GroupStart(d)] + Lex(v)
  {
    var u := ['(', '?', d] + v;
    LexCons(u);
    assert u[3..] == v;
  }

  lemma {:induction false} LexCharText(c: char, v: seq<char>)
    requires c != '(' && c != '\\'
    ensures Lex([c] + v) == [Char(c)] + Lex(v)
  {
    var u := [c] + v;
    LexCons(u);
    assert u[1..] == v;
  }

  lemma {:induction false} LexEscapeText(c: char, v: seq<char>)
    requires !IsNonZeroDigit(c)
    ensures Lex(['\\', c] + v) == [Escaped(c)] + Lex(v)
  {
    var u := ['\\', c] + v;
    LexCons(u);
    assert u[2..] == v;
  }

  lemma {:induction false} InertPlain(cs: seq<char>, x: seq<char>)
    requires Inert(cs)
    ensures Lex(cs + x) == Chars(cs) + Lex(x)
  {
    var u := cs + x;
    LexPlain(u, |cs|);
    assert u[..|cs|] == cs && u[|cs|..] == x;
  }

  lemma {:induction false} OpenTailInert(n: nat)
    ensures Inert(Marker(n) + ">")
  {
    var m := Marker(n);
    MarkerInert(n);
    var tail := m + ">";
    forall q | 0 <= q < |tail|
      ensures tail[q] != '(' && tail[q] != '\\' && tail[q] != '[' && tail[q] != ']'
    {
      if q < |m| {
        assert tail[q] == m[q];
      }
    }
  }

  lemma {:induction false} CloseTailInert(n: nat)
    ensures Inert("<" + Marker(n) + ">)")
  {
    var m := Marker(n);
    MarkerInert(n);
    var tail := "<" + m + ">)";
    forall q | 0 <= q < |tail|
      ensures tail[q] != '(' && tail[q] != '\\' && tail[q] != '[' && tail[q] != ']'
    {
      if 0 < q <= |m| {
        assert tail[q] == m[q - 1];
      }
    }
  }

  lemma {:induction false} OpenTextSplit(n: nat, x: seq<char>)
    ensures OpenText(n) + x == ['(', '?', ':'] + (['(', '?', '='] + (['(', '?', '<'] + ((Marker(n) + ">") + x)))
  {
  }

  lemma {:induction false} OpenTokensSplit(n: nat, l: seq<Token>)
    ensures OpenTokens(n) + l
         == [GroupStart(':')] + ([GroupStart('=')] + ([GroupStart('<')] + (Chars(Marker(n) + ">") + l)))
  {
  }

  lemma {:induction false} CloseTextSplit(n: nat, y: seq<char>)
    ensures CloseText(n) + y == [')'] + ([')'] + (['\\', 'k'] + (("<" + Marker(n) + ">)") + y)))
  {
  }

  lemma {:induction false} CloseTokensSplit(n: nat, l: seq<Token>)
    ensures CloseTokens(n) + l
         == [Char(')')] + ([Char(')')] + ([Escaped('k')] + (Chars("<" + Marker(n) + ">)") + l)))
  {
  }

  /** The text put in place of `(?>` lexes as three group starts and then one plain
      character per character of the marker name and `>`, whatever follows it. */
  lemma {:induction false} LexOpenText(n: nat, x: seq<char>)
    ensures Lex(OpenText(n) + x) == OpenTokens(n) + Lex(x)
  {
    var tail := Marker(n) + ">";
    var v3 := tail + x;
    var v2 := ['(', '?', '<'] + v3;
    var v1 := ['(', '?', '='] + v2;
    OpenTextSplit(n, x);
    LexGroupStartText(':', v1);
    LexGroupStartText('=', v2);
    LexGroupStartText('<', v3);
    OpenTailInert(n);
    InertPlain(tail, x);
    OpenTokensSplit(n, Lex(x));
  }

  /** The text put in place of the closing `)` lexes as two `)`, the escape `\k`, and then
      one plain character per remaining character, whatever follows it. */
  lemma {:induction false} LexCloseText(n: nat, y: seq<char>)
    ensures Lex(CloseText(n) + y) == CloseTokens(n) + Lex(y)
  {
    var tail := "<" + Marker(n) + ">)";
    var v3 := tail + y;
    var v2 := ['\\', 'k'] + v3;
    var v1 := [')'] + v2;
    CloseTextSplit(n, y);
    LexCharText(')', v1);
    LexCharText(')', v2);
    LexEscapeText('k', v3);
    CloseTailInert(n);
    InertPlain(tail, y);
    CloseTokensSplit(n, Lex(y));
  }

  lemma {:induction false} Assoc(pre: seq<Token>, body: seq<Token>, post: seq<Token>)
    ensures pre + [GroupStart('>')] + body + [Char(')')] + post
         == pre + ([GroupStart('>')] + (body + ([Char(')')] + post)))
  {
  }

  /** The text right after an opener lexes as the rest of the stream. */
  lemma {:induction false} AfterOpener(s: seq<char>, pre: seq<Token>, body: seq<Token>, post: seq<Token>)
    requires Lex(s) == pre + [GroupStart('>')] + body + [Char(')')] + post
    ensures Width(pre) + 3 <= |s| && s[Width(pre)] == '('
    ensures Lex(s[Width(pre) + 3..]) == body + ([Char(')')] + post)
  {
    var w := Width(pre);
    var tail := body + ([Char(')')] + post);
    assert Len(GroupStart('>')) == 3;
    Assoc(pre, body, post);
    LexSplit(s, pre, [GroupStart('>')] + tail);
    LexDrop(s, w, GroupStart('>'), tail);
    assert s[w] == s[w..w + 3][0];
    assert Lex(s[w + 3..]) == tail;
  }

  /** The text right after the closing `)` lexes as the rest of the stream. */
  lemma {:induction false} CloseAt(u: seq<char>, w: nat, post: seq<Token>)
    requires w <= |u| && Lex(u[w..]) == [Char(')')] + post
    ensures w < |u| && u[w] == ')' && Lex(u[w + 1..]) == post
  {
    assert Len(Char(')')) == 1;
    LexDrop(u, w, Char(')'), post);
    assert u[w] == u[w..w + 1][0];
  }

  lemma {:induction false} AfterClose(s: seq<char>, k: nat, body: seq<Token>, post: seq<Token>, p: nat)
    requires k <= |s| && Lex(s[k..]) == body + ([Char(')')] + post) && p == k + Width(body)
    ensures p < |s| && s[p] == ')'
    ensures Lex(s[p + 1..]) == post
  {
    LexSplitAt(s, k, body, [Char(')')] + post, p);
    CloseAt(s, p, post);
  }

  /** Where the pieces of a stream `pre (?> body ) post` sit in the text: the opener
      starts at `a` and the closing `)` is at `p`. */
  lemma {:induction false} GroupPieces(s: seq<char>, pre: seq<Token>, body: seq<Token>, post: seq<Token>, a: nat, p: nat)
    requires Lex(s) == pre + [GroupStart('>')] + body + [Char(')')] + post
    requires a == Width(pre) && p == a + 3 + Width(body)
    ensures p < |s| && s[a] == '(' && s[p] == ')'
    ensures Lex(s[a + 3..]) == body + ([Char(')')] + post)
    ensures Lex(s[p + 1..]) == post
  {
    AfterOpener(s, pre, body, post);
    AfterClose(s, a + 3, body, post, p);
  }

  /** The token stream of the rewritten pattern: the tokens before the group, the body and
      after the group are those of the original, and only the opener and the closing `)` are
      replaced, by the tokens of the two wrapper texts. */
  lemma {:induction false} RewriteTokens(s: seq<char>, pre: seq<Token>, body: seq<Token>, post: seq<Token>, n: nat, a: nat, p: nat)
    requires Lex(s) == pre + [GroupStart('>')] + body + [Char(')')] + post
    requires a == Width(pre) && p == a + 3 + Width(body)
    ensures p < |s|
    ensures Lex(Rewritten(s, a, p, n)) == pre + OpenTokens(n) + body + CloseTokens(n) + post
  {
    GroupPieces(s, pre, body, post, a, p);
    var r := Rewritten(s, a, p, n);
    var x := s[a + 3..p] + (CloseText(n) + s[p + 1..]);
    RewrittenAssoc(s, a, p, n);
    Assoc(pre, body, post);
    PrefixLexes(s, r, pre, [GroupStart('>')] + (body + ([Char(')')] + post)), a);
    LexOpenText(n, x);
    BodyLexes(s, body, post, n, a, p);
    Assoc2(pre, OpenTokens(n), body, CloseTokens(n), post);
  }

  lemma {:induction false} RewrittenAssoc(s: seq<char>, a: nat, p: nat, n: nat)
    requires a + 3 <= p < |s|
    ensures var r := Rewritten(s, a, p, n);
      var x := s[a + 3..p] + (CloseText(n) + s[p + 1..]);
      && a < |r| && r[..a] == s[..a] && r[a] == '(' && r[a..] == OpenText(n) + x
  {
  }

  lemma {:induction false} Assoc2(a: seq<Token>, b: seq<Token>, c: seq<Token>, d: seq<Token>, e: seq<Token>)
    ensures a + (b + (c + (d + e))) == a + b + c + d + e
  {
  }

  lemma {:induction false} PrefixExtend(s: seq<char>, r: seq<char>, a: nat)
    requires a < |s| && a < |r| && r[..a] == s[..a] && r[a] == s[a]
    ensures s[..a + 1] == r[..a + 1]
  {
    assert s[..a + 1] == s[..a] + [s[a]];
    assert r[..a + 1] == r[..a] + [r[a]];
  }

  /** Up to the opener, the rewritten text lexes as the original did. */
  lemma {:induction false} PrefixLexes(s: seq<char>, r: seq<char>, pre: seq<Token>, rest: seq<Token>, a: nat)
    requires Lex(s) == pre + rest && a == Width(pre)
    requires a < |s| && a < |r|
    requires r[..a] == s[..a] && r[a] == s[a] == '('
    ensures Lex(r) == pre + Lex(r[a..])
  {
    PrefixExtend(s, r, a);
    LexAgree(s, r, pre, rest, a);
  }

  /** The body followed by the closing wrapper lexes as the body, then the wrapper's tokens,
      then the tokens after the group. */
  lemma {:induction false} BodyLexes(s: seq<char>, body: seq<Token>, post: seq<Token>, n: nat, a: nat, p: nat)
    requires p < |s| && p == a + 3 + Width(body) && s[p] == ')'
    requires Lex(s[a + 3..]) == body + ([Char(')')] + post)
    requires Lex(s[p + 1..]) == post
    ensures Lex(s[a + 3..p] + (CloseText(n) + s[p + 1..])) == body + (CloseTokens(n) + post)
  {
    var w := Width(body);
    var y := s[p + 1..];
    var x := s[a + 3..p] + (CloseText(n) + y);
    var sb := s[a + 3..];
    BodyAgrees(s, a, p, n, w);
    LexAgree(sb, x, body, [Char(')')] + post, w);
    LexCloseText(n, y);
  }

  lemma {:induction false} BodyAgrees(s: seq<char>, a: nat, p: nat, n: nat, w: nat)
    requires p < |s| && p == a + 3 + w && s[p] == ')'
    ensures var x := s[a + 3..p] + (CloseText(n) + s[p + 1..]);
      var sb := s[a + 3..];
      && w < |sb| && w < |x| && sb[..w + 1] == x[..w + 1] && sb[w] == ')'
      && x[w..] == CloseText(n) + s[p + 1..]
  {
    var x := s[a + 3..p] + (CloseText(n) + s[p + 1..]);
    var sb := s[a + 3..];
    assert sb[..w + 1] == s[a + 3..p] + [s[p]];
    assert x[..w + 1] == s[a + 3..p] + [x[w]];
  }

  lemma {:induction false} NoBrackets(m: seq<char>, pre: seq<char>, post: seq<char>)
    requires Inert(m) && Inert(pre) && Inert(post)
    ensures forall q :: 0 <= q < |pre + m + post| ==> (pre + m + post)[q] != '[' && (pre + m + post)[q] != ']'
  {
    var u := pre + m + post;
    forall q | 0 <= q < |u|
      ensures u[q] != '[' && u[q] != ']'
    {
      if q < |pre| {
        assert u[q] == pre[q];
      } else if q < |pre| + |m| {
        assert u[q] == m[q - |pre|];
      } else {
        assert u[q] == post[q - |pre| - |m|];
      }
    }
  }

  /** The tokens put in place of `(?>` neither count nor move the class depth. */
  lemma {:induction false} OpenNeutral(n: nat, d: nat, k: Kind)
    requires k == Opener || k == Backref
    ensures CountAt0(OpenTokens(n), d, k) == 0 && DepthAfter(OpenTokens(n), d) == d
  {
    MarkerInert(n);
    NoBrackets(Marker(n), [], ">");
    assert [] + Marker(n) + ">" == Marker(n) + ">";
    CharsNeutral(Marker(n) + ">", d, k);
    var g := [GroupStart(':'), GroupStart('='), GroupStart('<')];
    CountAppend(g, Chars(Marker(n) + ">"), d, k);
    DepthAppend(g, Chars(Marker(n) + ">"), d);
  }

  /** The tokens put in place of the closing `)` neither count nor move the class depth. */
  lemma {:induction false} CloseNeutral(n: nat, d: nat, k: Kind)
    requires k == Opener || k == Backref
    ensures CountAt0(CloseTokens(n), d, k) == 0 && DepthAfter(CloseTokens(n), d) == d
  {
    MarkerInert(n);
    NoBrackets(Marker(n), "<", ">)");
    CharsNeutral("<" + Marker(n) + ">)", d, k);
    var e := [Char(')'), Char(')'), Escaped('k')];
    CountAppend(e, Chars("<" + Marker(n) + ">)"), d, k);
    DepthAppend(e, Chars("<" + Marker(n) + ">)"), d);
  }

  /** Counting across a run that leaves the class depth where it found it. */
  lemma {:induction false} CountSplit(a: seq<Token>, b: seq<Token>, d: nat, k: Kind)
    requires DepthAfter(a, d) == d
    ensures CountAt0(a + b, d, k) == CountAt0(a, d, k) + CountAt0(b, d, k)
    ensures DepthAfter(a + b, d) == DepthAfter(b, d)
  {
    CountAppend(a, b, d, k);
    DepthAppend(a, b, d);
  }

  /** A rewrite takes away the one `(?>` it replaces and keeps every other `(?>` and every
      numbered backreference outside a class, provided the text before the group and the body
      leave no class open. */
  lemma {:induction false} RewriteCounts(pre: seq<Token>, body: seq<Token>, post: seq<Token>, n: nat, k: Kind)
    requires k == Opener || k == Backref
    requires DepthAfter(pre, 0) == 0 && DepthAfter(body, 0) == 0
    ensures CountAt0(pre + [GroupStart('>')] + body + [Char(')')] + post, 0, k)
         == CountAt0(pre, 0, k) + (if k == Opener then 1 else 0) + CountAt0(body, 0, k) + CountAt0(post, 0, k)
    ensures CountAt0(pre + OpenTokens(n) + body + CloseTokens(n) + post, 0, k)
         == CountAt0(pre, 0, k) + CountAt0(body, 0, k) + CountAt0(post, 0, k)
  {
    var o := [GroupStart('>')];
    var c := [Char(')')];
    CountSplit(pre, o, 0, k);
    CountSplit(pre + o, body, 0, k);
    CountSplit(pre + o + body, c, 0, k);
    CountSplit(pre + o + body + c, post, 0, k);
    OpenNeutral(n, 0, k);
    CloseNeutral(n, 0, k);
    CountSplit(pre, OpenTokens(n), 0, k);
    CountSplit(pre + OpenTokens(n), body, 0, k);
    CountSplit(pre + OpenTokens(n) + body, CloseTokens(n), 0, k);
    CountSplit(pre + OpenTokens(n) + body + CloseTokens(n), post, 0, k);
  }

  lemma {:induction false} MarkerQuiet(n: nat)
    ensures Quiet(Marker(n))
  {
    var m := Marker(n);
    forall q | 0 <= q < |m|
      ensures m[q] != '[' && m[q] != ']' && m[q] != ')'
    {
      if q >= 4 {
        assert m[q] == m[4..][q - 4];
      }
    }
  }

  lemma {:induction false} QuietJoin(pre: seq<char>, m: seq<char>, post: seq<char>)
    requires Quiet(pre) && Quiet(m) && Quiet(post)
    ensures Quiet(pre + m + post)
  {
    var u := pre + m + post;
    forall q | 0 <= q < |u|
      ensures u[q] != '[' && u[q] != ']' && u[q] != ')'
    {
      if q < |pre| {
        assert u[q] == pre[q];
      } else if q < |pre| + |m| {
        assert u[q] == m[q - |pre|];
      } else {
        assert u[q] == post[q - |pre| - |m|];
      }
    }
  }

  /** The tokens put in place of `(?>` hold three group starts and no `)` outside a class. */
  lemma {:induction false} OpenParens(n: nat)
    ensures CountAt0(OpenTokens(n), 0, AnyGroup) == 3
    ensures CountAt0(OpenTokens(n), 0, CloseParen) == 0
    ensures DepthAfter(OpenTokens(n), 0) == 0
  {
    var g := [GroupStart(':'), GroupStart('='), GroupStart('<')];
    var tail := Marker(n) + ">";
    MarkerQuiet(n);
    QuietJoin([], Marker(n), ">");
    assert [] + Marker(n) + ">" == tail;
    CharsNeutral(tail, 0, AnyGroup);
    CharsNoClose(tail, 0);
    CountSplit(g, Chars(tail), 0, AnyGroup);
    CountSplit(g, Chars(tail), 0, CloseParen);
  }

  /** The tokens put in place of the closing `)` hold three `)` and no group start outside a
      class. */
  lemma {:induction false} CloseParens(n: nat)
    ensures CountAt0(CloseTokens(n), 0, AnyGroup) == 0
    ensures CountAt0(CloseTokens(n), 0, CloseParen) == 3
    ensures DepthAfter(CloseTokens(n), 0) == 0
  {
    var e := [Char(')'), Char(')'), Escaped('k')];
    var inner := "<" + Marker(n) + ">";
    var tail := "<" + Marker(n) + ">)";
    MarkerQuiet(n);
    QuietJoin("<", Marker(n), ">");
    assert tail == inner + ")";
    CharsAppend(inner, ")");
    assert Chars(")") == [Char(')')];
    assert Chars(tail) == Chars(inner) + [Char(')')];
    CharsNeutral(inner, 0, AnyGroup);
    CharsNoClose(inner, 0);
    CountSplit(Chars(inner), [Char(')')], 0, AnyGroup);
    CountSplit(Chars(inner), [Char(')')], 0, CloseParen);
    CountSplit(e, Chars(tail), 0, AnyGroup);
    CountSplit(e, Chars(tail), 0, CloseParen);
  }

  /** Parentheses stay balanced: the rewrite takes away one group start and one `)` outside a
      class and puts in three of each, so both counts grow by two. */
  lemma {:induction false} RewriteKeepsParens(pre: seq<Token>, body: seq<Token>, post: seq<Token>, n: nat, k: Kind)
    requires k == AnyGroup || k == CloseParen
    requires DepthAfter(pre, 0) == 0 && DepthAfter(body, 0) == 0
    ensures CountAt0(pre + OpenTokens(n) + body + CloseTokens(n) + post, 0, k)
         == CountAt0(pre + [GroupStart('>')] + body + [Char(')')] + post, 0, k) + 2
  {
    var o := [GroupStart('>')];
    var c := [Char(')')];
    CountSplit(pre, o, 0, k);
    CountSplit(pre + o, body, 0, k);
    CountSplit(pre + o + body, c, 0, k);
    CountSplit(pre + o + body + c, post, 0, k);
    OpenParens(n);
    CloseParens(n);
    CountSplit(pre, OpenTokens(n), 0, k);
    CountSplit(pre + OpenTokens(n), body, 0, k);
    CountSplit(pre + OpenTokens(n) + body, CloseTokens(n), 0, k);
    CountSplit(pre + OpenTokens(n) + body + CloseTokens(n), post, 0, k);
  }
}
