/** The escape-aware scanner that the rewrite loop of transformAtomicGroups runs
    over a pattern: its token regex, written out as a function that reads one
    token at a position, and the token stream it produces. */
module Tokens {

  /** One token. Alternatives are tried in this order; the first that matches wins. */
  datatype Token =
    | GroupStart(delim: char)             // `(?` followed by one of `:=!<>`
    | NumberedBackref(digits: seq<char>)  // `\`, a digit 1-9, then any further digits
    | Escaped(c: char)                    // `\` and the one character after it
    | Char(c: char)                       // any other single character

  /** The text a token stands for. */
  function Spelling(t: Token): (text: seq<char>)
  {
    match t
    case GroupStart(d) => ['(', '?', d]
    case NumberedBackref(ds) => ['\\'] + ds
    case Escaped(c) => ['\\', c]
    case Char(c) => [c]
  }

  /** The number of characters a token covers. */
  function Len(t: Token): (n: nat)
  {
    match t
    case GroupStart(_) => 3
    case NumberedBackref(ds) => 1 + |ds|
    case Escaped(_) => 2
    case Char(_) => 1
  }

  lemma {:induction false} LenIsSpellingLength(t: Token)
    ensures |Spelling(t)| == Len(t)
  {
  }

  /** The text of a token list, token after token. */
  function Text(ts: seq<Token>): (text: seq<char>)
  {
    if ts == [] then [] else Spelling(ts[0]) + Text(ts[1..])
  }

  /** The number of characters a token list covers. */
  function Width(ts: seq<Token>): (w: nat)
  {
    if ts == [] then 0 else Len(ts[0]) + Width(ts[1..])
  }

  lemma {:induction false} WidthCons(t: Token, ts: seq<Token>)
    ensures Width([t] + ts) == Len(t) + Width(ts)
  {
    assert ([t] + ts)[1..] == ts;
  }

  lemma {:induction false} WidthAppend(a: seq<Token>, b: seq<Token>)
    ensures Width(a + b) == Width(a) + Width(b)
    decreases |a|
  {
    if a != [] {
      assert (a + b)[1..] == a[1..] + b;
      WidthAppend(a[1..], b);
    } else {
      assert a + b == b;
    }
  }

  /** Whether a matched text is exactly the one character `c`. */
  predicate IsChar(m: seq<char>, c: char)
  {
    |m| == 1 && m[0] == c
  }

  predicate IsDigit(c: char) { '0' <= c <= '9' }

  predicate IsNonZeroDigit(c: char) { '1' <= c <= '9' }

  predicate IsGroupDelim(c: char)
  {
    c == ':' || c == '=' || c == '!' || c == '<' || c == '>'
  }

  predicate IsGroupStartAt(s: seq<char>, i: nat)
  {
    i + 2 < |s| && s[i] == '(' && s[i + 1] == '?' && IsGroupDelim(s[i + 2])
  }

  /** Length of the run of decimal digits starting at `i` (the greedy `\d*`). */
  function DigitRun(s: seq<char>, i: nat): (n: nat)
    requires i <= |s|
    ensures i + n <= |s|
    decreases |s| - i
  {
    if i < |s| && IsDigit(s[i]) then 1 + DigitRun(s, i + 1) else 0
  }

  /** The run is all digits and cannot be extended: `\d*` takes the longest run. */
  lemma {:induction false} DigitRunIsLongest(s: seq<char>, i: nat)
    requires i <= |s|
    ensures forall q :: i <= q < i + DigitRun(s, i) ==> IsDigit(s[q])
    ensures i + DigitRun(s, i) == |s| || !IsDigit(s[i + DigitRun(s, i)])
    decreases |s| - i
  {
    if i < |s| && IsDigit(s[i]) {
      DigitRunIsLongest(s, i + 1);
    }
  }

  /** The token that starts at position `i` of `s`. */
  function NextToken(s: seq<char>, i: nat): (t: Token)
    requires i < |s|
    // the token is a non-empty piece of the text starting at i
    ensures 0 < Len(t) <= |s| - i
    // alternation order: group start, then numbered backreference, then `\\?.`
    ensures t.GroupStart? <==> IsGroupStartAt(s, i)
    ensures t.NumberedBackref? <==> i + 1 < |s| && s[i] == '\\' && IsNonZeroDigit(s[i + 1])
    // a numbered backreference takes the greedy digit run after its first digit
    ensures t.NumberedBackref? ==> Len(t) == 2 + DigitRun(s, i + 2)
    ensures t.Char? ==> s[i] != '\\' || i + 1 == |s|
  {
    if IsGroupStartAt(s, i) then GroupStart(s[i + 2])
    else if i + 1 < |s| && s[i] == '\\' && IsNonZeroDigit(s[i + 1]) then
      NumberedBackref(s[i + 1 .. i + 2 + DigitRun(s, i + 2)])
    else if i + 1 < |s| && s[i] == '\\' then Escaped(s[i + 1])
    else Char(s[i])
  }

  /** The token at `i` is the text found at `i`. */
  lemma {:induction false} TokenSpelled(s: seq<char>, i: nat)
    requires i < |s|
    ensures s[i..i + Len(NextToken(s, i))] == Spelling(NextToken(s, i))
  {
    match NextToken(s, i)
    case GroupStart(_) =>
      assert s[i..i + 3] == [s[i], s[i + 1], s[i + 2]];
    case NumberedBackref(ds) =>
      assert ds == s[i + 1..i + 2 + DigitRun(s, i + 2)];
      assert s[i..i + 2 + DigitRun(s, i + 2)] == [s[i]] + ds;
    case Escaped(_) =>
      assert s[i..i + 2] == [s[i], s[i + 1]];
    case Char(_) =>
      assert s[i..i + 1] == [s[i]];
  }

  /** A slice of a suffix is a slice of the whole. */
  lemma {:induction false} DropSlice(s: seq<char>, i: nat, a: nat, b: nat)
    requires i + b <= |s| && a <= b
    ensures s[i..][a..b] == s[i + a..i + b]
  {
    var x := s[i..][a..b];
    var y := s[i + a..i + b];
    assert |x| == |y|;
    forall q | 0 <= q < |x|
      ensures x[q] == y[q]
    {
      assert x[q] == s[i..][a + q];
    }
  }

  /** A slice of a prefix is a slice of the whole. */
  lemma {:induction false} TakeSlice(s: seq<char>, k: nat, a: nat, b: nat)
    requires a <= b <= k <= |s|
    ensures s[..k][a..b] == s[a..b]
  {
    var x := s[..k][a..b];
    var y := s[a..b];
    assert |x| == |y|;
    forall q | 0 <= q < |x|
      ensures x[q] == y[q]
    {
      assert x[q] == s[..k][a + q];
    }
  }

  /** The token stream of `s`: the tokens read one after the other from the start. */
  function Lex(s: seq<char>): (ts: seq<Token>)
    decreases |s|
  {
    if s == [] then [] else var t := NextToken(s, 0); [t] + Lex(s[Len(t)..])
  }

  /** Tokens for a run of plain characters. */
  function Chars(cs: seq<char>): (ts: seq<Token>)
  {
    if cs == [] then [] else [Char(cs[0])] + Chars(cs[1..])
  }

  lemma {:induction false} TextAppend(a: seq<Token>, b: seq<Token>)
    ensures Text(a + b) == Text(a) + Text(b)
    decreases |a|
  {
    if a == [] {
      assert a + b == b;
    } else {
      assert (a + b)[1..] == a[1..] + b;
      TextAppend(a[1..], b);
    }
  }

  lemma {:induction false} CharsAppend(a: seq<char>, b: seq<char>)
    ensures Chars(a + b) == Chars(a) + Chars(b)
    decreases |a|
  {
    if a == [] {
      assert a + b == b;
    } else {
      assert (a + b)[1..] == a[1..] + b;
      CharsAppend(a[1..], b);
    }
  }

  lemma {:induction false} TextCons(t: Token, ts: seq<Token>)
    ensures Text([t] + ts) == Spelling(t) + Text(ts)
  {
    assert ([t] + ts)[1..] == ts;
  }

  /** The scanner never skips or double-reads a character: its tokens spell out the text. */
  lemma {:induction false} LexCovers(s: seq<char>)
    ensures Text(Lex(s)) == s
    decreases |s|
  {
    if s != [] {
      var t := NextToken(s, 0);
      var n := Len(t);
      var rest := s[n..];
      assert Text(Lex(s)) == Spelling(t) + Text(Lex(rest)) by {
        LexCons(s);
        TextCons(t, Lex(rest));
      }
      assert Text(Lex(rest)) == rest by {
        LexCovers(rest);
      }
      assert Spelling(t) == s[..n] by {
        TokenSpelled(s, 0);
        assert s[..n] == s[0..n];
      }
      TakeDrop(s, n);
    }
  }

  lemma {:induction false} TakeDrop(s: seq<char>, n: nat)
    requires n <= |s|
    ensures s[..n] + s[n..] == s
  {
  }

  lemma {:induction false} DropDrop<T>(s: seq<T>, i: nat, j: nat)
    requires i + j <= |s|
    ensures s[i..][j..] == s[i + j..]
  {
  }

  lemma {:induction false} DropAt<T>(s: seq<T>, i: nat, j: nat, k: nat)
    requires k == i + j && k <= |s|
    ensures s[i..][j..] == s[k..]
  {
  }

  lemma {:induction false} AppendTail<T>(a: seq<T>, b: seq<T>)
    requires a != []
    ensures (a + b)[0] == a[0] && (a + b)[1..] == a[1..] + b
  {
  }

  lemma {:induction false} ConsTail<T>(x: T, b: seq<T>)
    ensures ([x] + b)[0] == x && ([x] + b)[1..] == b
  {
  }

  lemma {:induction false} DropTake<T>(s: seq<T>, n: nat, m: nat)
    requires n <= m <= |s|
    ensures s[n..][..m - n] == s[..m][n..]
  {
  }

  lemma {:induction false} LexCons(s: seq<char>)
    requires s != []
    ensures Lex(s) == [NextToken(s, 0)] + Lex(s[Len(NextToken(s, 0))..])
  {
  }

  lemma {:induction false} DigitRunSuffix(s: seq<char>, i: nat, t: seq<char>, j: nat)
    requires i <= |s| && j <= |t| && s[i..] == t[j..]
    ensures DigitRun(s, i) == DigitRun(t, j)
    decreases |s| - i
  {
    if i < |s| {
      assert s[i] == s[i..][0] == t[j..][0] == t[j];
      assert s[i + 1..] == s[i..][1..] == t[j..][1..] == t[j + 1..];
      DigitRunSuffix(s, i + 1, t, j + 1);
    }
  }

  /** The token at a position depends only on the text from that position on. */
  lemma {:induction false} TokenSuffix(s: seq<char>, i: nat, t: seq<char>, j: nat)
    requires i < |s| && j <= |t| && s[i..] == t[j..]
    ensures NextToken(t, j) == NextToken(s, i)
  {
    assert s[i] == s[i..][0] == t[j..][0] == t[j];
    if i + 1 < |s| {
      assert s[i + 1] == s[i..][1] == t[j..][1] == t[j + 1];
    }
    if i + 2 < |s| {
      assert s[i + 2] == s[i..][2] == t[j..][2] == t[j + 2];
    }
    if i + 1 < |s| && s[i] == '\\' && IsNonZeroDigit(s[i + 1]) {
      assert s[i + 2..] == t[j + 2..] by {
        assert s[i + 2..] == s[i..][2..];
        assert t[j + 2..] == t[j..][2..];
      }
      DigitRunSuffix(s, i + 2, t, j + 2);
      var r := DigitRun(s, i + 2);
      DropSlice(s, i, 1, 2 + r);
      DropSlice(t, j, 1, 2 + r);
    }
  }

  /** Reading the token at `i` and lexing on from its end lexes the text from `i`. */
  lemma {:induction false} LexAt(s: seq<char>, i: nat)
    requires i < |s|
    ensures Lex(s[i..]) == [NextToken(s, i)] + Lex(s[i + Len(NextToken(s, i))..])
  {
    var t := NextToken(s, i);
    TokenSuffix(s, i, s[i..], 0);
    LexCons(s[i..]);
    DropDrop(s, i, Len(t));
  }

  /** The first of a non-empty prefix of the stream is the token at the start, and the
      rest of the prefix begins the stream after that token. */
  lemma {:induction false} LexHead(s: seq<char>, a: seq<Token>, rest: seq<Token>)
    requires Lex(s) == a + rest && a != []
    ensures s != [] && a[0] == NextToken(s, 0)
    ensures Lex(s[Len(a[0])..]) == a[1..] + rest
  {
    var t := NextToken(s, 0);
    LexCons(s);
    AppendTail(a, rest);
    ConsTail(t, Lex(s[Len(t)..]));
  }

  lemma {:induction false} LexOfDrop(s: seq<char>, i: nat, j: nat, k: nat)
    requires k == i + j && k <= |s|
    ensures Lex(s[i..][j..]) == Lex(s[k..])
  {
    DropAt(s, i, j, k);
  }

  /** A token at the head of the stream from `w` is spelled there, and the stream goes on
      where it ends. */
  lemma {:induction false} LexDrop(s: seq<char>, w: nat, t: Token, tail: seq<Token>)
    requires w <= |s| && Lex(s[w..]) == [t] + tail
    ensures w + Len(t) <= |s|
    ensures s[w..w + Len(t)] == Spelling(t)
    ensures Lex(s[w + Len(t)..]) == tail
  {
    var u := s[w..];
    LexFirst(u, t, tail);
    TokenSpelled(u, 0);
    LenIsSpellingLength(t);
    DropSlice(s, w, 0, Len(t));
    LexOfDrop(s, w, Len(t), w + Len(t));
  }

  /** The head of a stream is the token at the start of the text. */
  lemma {:induction false} LexFirst(u: seq<char>, t: Token, tail: seq<Token>)
    requires Lex(u) == [t] + tail
    ensures u != [] && t == NextToken(u, 0) && Lex(u[Len(t)..]) == tail
  {
    LexCons(u);
    ConsInjective(t, tail, NextToken(u, 0), Lex(u[Len(NextToken(u, 0))..]));
  }

  lemma {:induction false} ConsInjective(a: Token, x: seq<Token>, b: Token, y: seq<Token>)
    requires [a] + x == [b] + y
    ensures a == b && x == y
  {
    assert a == ([a] + x)[0];
    assert x == ([a] + x)[1..];
  }

  /** Restarting the scanner at the end of a prefix of the stream gives the rest of it. */
  lemma {:induction false} LexSplit(s: seq<char>, a: seq<Token>, rest: seq<Token>)
    requires Lex(s) == a + rest
    ensures Width(a) <= |s| && rest == Lex(s[Width(a)..])
    decreases |a|
  {
    if a != [] {
      LexHead(s, a, rest);
      var n := Len(a[0]);
      LexSplit(s[n..], a[1..], rest);
      assert Width(a) == n + Width(a[1..]);
      DropAt(s, n, Width(a[1..]), Width(a));
    }
  }

  /** LexSplit for the text from position `k` on. */
  lemma {:induction false} LexSplitAt(s: seq<char>, k: nat, a: seq<Token>, rest: seq<Token>, p: nat)
    requires k <= |s| && Lex(s[k..]) == a + rest && p == k + Width(a)
    ensures p <= |s| && Lex(s[p..]) == rest
  {
    LexSplit(s[k..], a, rest);
    DropAt(s, k, Width(a), p);
  }

  lemma {:induction false} DigitRunAgree(s: seq<char>, i: nat, t: seq<char>, j: nat, k: nat)
    requires i + k <= |s| && j + k <= |t| && s[i..i + k] == t[j..j + k]
    requires DigitRun(s, i) < k
    ensures DigitRun(t, j) == DigitRun(s, i)
    decreases k
  {
    assert s[i] == s[i..i + k][0] == t[j..j + k][0] == t[j];
    if IsDigit(s[i]) {
      assert s[i + 1..i + k] == s[i..i + k][1..] == t[j..j + k][1..] == t[j + 1..j + k];
      DigitRunAgree(s, i + 1, t, j + 1, k - 1);
    }
  }

  /** A token is decided by the text it covers and the character right after it,
      unless that character is the `?` that could still complete a group start. */
  lemma {:induction false} TokenAgree(s: seq<char>, t: seq<char>, k: nat, j: nat)
    requires 0 < |s| && k <= |s| && k <= |t| && s[..k] == t[..k]
    requires Len(NextToken(s, 0)) < k
    requires k == j + 1 && s[j] != '?'
    ensures NextToken(t, 0) == NextToken(s, 0)
  {
    var a := NextToken(s, 0);
    assert s[0] == s[..k][0] == t[..k][0] == t[0];
    assert s[1] == s[..k][1] == t[..k][1] == t[1];
    if k >= 3 {
      assert s[2] == s[..k][2] == t[..k][2] == t[2];
    }
    if a.GroupStart? {
      assert IsGroupStartAt(t, 0);
    } else if a.NumberedBackref? {
      var r := DigitRun(s, 2);
      assert a == NumberedBackref(s[1..2 + r]);
      TakeSlice(s, k, 2, k);
      TakeSlice(t, k, 2, k);
      DigitRunAgree(s, 2, t, 2, k - 2);
      TakeSlice(s, k, 1, 2 + r);
      TakeSlice(t, k, 1, 2 + r);
    } else {
      assert !IsGroupStartAt(t, 0);
    }
  }

  lemma {:induction false} PrefixShift(s: seq<char>, t: seq<char>, n: nat, k: nat)
    requires n <= k < |s| && k < |t| && s[..k + 1] == t[..k + 1]
    ensures s[n..][..k - n + 1] == t[n..][..k - n + 1]
    ensures s[n..][k - n] == s[k]
  {
    DropTake(s, n, k + 1);
    DropTake(t, n, k + 1);
  }

  /** Two texts that agree on the text of some leading tokens of one of them, and on the
      character after it, lex into those same tokens and are at a token boundary there. */
  lemma {:induction false} LexAgree(s: seq<char>, t: seq<char>, a: seq<Token>, rest: seq<Token>, k: nat)
    requires Lex(s) == a + rest && k == Width(a)
    requires k < |s| && k < |t| && s[..k + 1] == t[..k + 1] && s[k] != '?'
    ensures Lex(t) == a + Lex(t[k..])
    decreases |a|
  {
    if a != [] {
      var n := Len(a[0]);
      LexAgreeHead(s, a, rest, n, k);
      AgreeShift(s, t, n, k);
      LexAgree(s[n..], t[n..], a[1..], rest, k - n);
      LexAgreeTail(t, a[1..], n, k - n, k);
      LexAgreeJoin(t, a, n, k);
    }
  }

  /** The first token of a lexed prefix, and the width left after it. */
  lemma {:induction false} LexAgreeHead(s: seq<char>, a: seq<Token>, rest: seq<Token>, n: nat, k: nat)
    requires Lex(s) == a + rest && a != [] && n == Len(a[0]) && k == Width(a)
    ensures n <= k && k - n == Width(a[1..])
    ensures a[0] == NextToken(s, 0) && n == Len(NextToken(s, 0))
    ensures Lex(s[n..]) == a[1..] + rest
  {
    LexHead(s, a, rest);
  }

  /** Two texts that agree up to and including position `k` past the first token start
      with the same token, and agree after it. */
  lemma {:induction false} AgreeShift(s: seq<char>, t: seq<char>, n: nat, k: nat)
    requires n <= k < |s| && k < |t| && s[..k + 1] == t[..k + 1] && s[k] != '?'
    requires n == Len(NextToken(s, 0)) && n <= k
    ensures NextToken(t, 0) == NextToken(s, 0)
    ensures k - n < |s[n..]| && k - n < |t[n..]|
    ensures s[n..][..k - n + 1] == t[n..][..k - n + 1] && s[n..][k - n] != '?'
  {
    TokenAgree(s, t, k + 1, k);
    PrefixShift(s, t, n, k);
  }

  lemma {:induction false} LexConsOf(s: seq<char>, t: Token, n: nat)
    requires s != [] && t == NextToken(s, 0) && n == Len(t)
    ensures n <= |s| && Lex(s) == [t] + Lex(s[n..])
  {
    LexCons(s);
  }

  lemma {:induction false} JoinCons<T>(l: seq<T>, a: seq<T>, m: seq<T>, tail: seq<T>)
    requires a != [] && l == [a[0]] + m && m == a[1..] + tail
    ensures l == a + tail
  {
  }

  lemma {:induction false} LexAgreeTail(t: seq<char>, b: seq<Token>, n: nat, m: nat, k: nat)
    requires k == n + m && k <= |t|
    requires Lex(t[n..]) == b + Lex(t[n..][m..])
    ensures Lex(t[n..]) == b + Lex(t[k..])
  {
    DropAt(t, n, m, k);
  }

  lemma {:induction false} LexAgreeJoin(t: seq<char>, a: seq<Token>, n: nat, w: nat)
    requires a != [] && n == Len(a[0]) && w < |t|
    requires NextToken(t, 0) == a[0]
    requires Lex(t[n..]) == a[1..] + Lex(t[w..])
    ensures Lex(t) == a + Lex(t[w..])
  {
    LexConsOf(t, a[0], n);
    JoinCons(Lex(t), a, Lex(t[n..]), Lex(t[w..]));
  }

  /** A run of characters other than `(` and `\` lexes as one Char token per character. */
  lemma {:induction false} LexPlain(s: seq<char>, n: nat)
    requires n <= |s|
    requires forall q :: 0 <= q < n ==> s[q] != '(' && s[q] != '\\'
    ensures Lex(s) == Chars(s[..n]) + Lex(s[n..])
    decreases n
  {
    if n > 0 {
      assert NextToken(s, 0) == Char(s[0]);
      assert Lex(s) == [Char(s[0])] + Lex(s[1..]);
      LexPlain(s[1..], n - 1);
      DropTake(s, 1, n);
      DropDrop(s, 1, n - 1);
    }
  }
}
