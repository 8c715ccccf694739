/** The guard run before any rewriting: does the needle occur unescaped outside every
    character class? The scan reads the pattern in pieces, each either an occurrence of
    the needle (tried first) or an optional `\` plus one character, and keeps the same
    class depth as the rewrite loop. */
module Guard {
  import opened Tokens
  import opened ClassDepth

  /** One match of the scanning expression: the needle, or an optional `\` plus a character. */
  datatype Piece = Found | Escape(c: char) | Single(c: char)

  /** Whether `needle` occurs in `s` starting at `i`. */
  predicate StartsAt(s: seq<char>, i: nat, needle: seq<char>)
  {
    i + |needle| <= |s| && s[i..i + |needle|] == needle
  }

  /** The piece the scanning expression matches at `i`: the needle wins, then an escape
      pair, then a single character (a lone `\` at the very end is a single character). */
  function PieceAt(s: seq<char>, i: nat, needle: seq<char>): (piece: Piece)
    requires i < |s| && |needle| > 0
    ensures piece.Found? <==> StartsAt(s, i, needle)
    ensures piece.Escape? ==> i + 1 < |s| && s[i] == '\\' && piece.c == s[i + 1]
    ensures piece.Single? ==> piece.c == s[i]
  {
    if StartsAt(s, i, needle) then Found
    else if s[i] == '\\' && i + 1 < |s| then Escape(s[i + 1])
    else Single(s[i])
  }

  /** The text a piece matched. */
  function PieceText(piece: Piece, needle: seq<char>): (text: seq<char>)
  {
    match piece
    case Found => needle
    case Escape(c) => ['\\', c]
    case Single(c) => [c]
  }

  lemma {:induction false} PieceSpelled(s: seq<char>, i: nat, needle: seq<char>)
    requires i < |s| && |needle| > 0
    ensures var m := PieceText(PieceAt(s, i, needle), needle);
      0 < |m| && i + |m| <= |s| && s[i..i + |m|] == m
  {
  }

  /** The answer of the scan from `i` on, with `depth` classes open there. */
  function GuardFrom(s: seq<char>, i: nat, needle: seq<char>, depth: nat): (found: bool)
    requires i <= |s| && |needle| > 0
    decreases |s| - i
  {
    if i == |s| then false
    else
      var piece := PieceAt(s, i, needle);
      var m := PieceText(piece, needle);
      PieceSpelled(s, i, needle);
      if IsChar(m, '[') then GuardFrom(s, i + |m|, needle, depth + 1)
      else if depth == 0 then piece.Found? || GuardFrom(s, i + |m|, needle, depth)
      else if IsChar(m, ']') then GuardFrom(s, i + |m|, needle, depth - 1)
      else GuardFrom(s, i + |m|, needle, depth)
  }

  /** One piece of the scan: the answer from `i` in terms of the answer after the piece. */
  lemma {:induction false} GuardPiece(s: seq<char>, i: nat, needle: seq<char>, d: nat)
    requires i < |s| && |needle| > 0
    ensures var piece := PieceAt(s, i, needle);
      var m := PieceText(piece, needle);
      && 0 < |m| && i + |m| <= |s|
      && GuardFrom(s, i, needle, d)
         == if IsChar(m, '[') then GuardFrom(s, i + |m|, needle, d + 1)
            else if d == 0 then piece.Found? || GuardFrom(s, i + |m|, needle, d)
            else if IsChar(m, ']') then GuardFrom(s, i + |m|, needle, d - 1)
            else GuardFrom(s, i + |m|, needle, d)
  {
    PieceSpelled(s, i, needle);
  }

  /** The guard's answer. An empty needle matches the empty text at every position, and the
      empty capture it leaves is falsy, so the scan never reports it. */
  function OccursUnescaped(s: seq<char>, needle: seq<char>): (found: bool)
  {
    if needle == [] then false else GuardFrom(s, 0, needle, 0)
  }

  /** The quick test: a plain search for the needle anywhere in the pattern. */
  function Occurs(s: seq<char>, needle: seq<char>): (found: bool)
    decreases |s|
  {
    if StartsAt(s, 0, needle) then true
    else if s == [] then false
    else Occurs(s[1..], needle)
  }

  /** The search answers whether the needle starts at some position of the text. */
  lemma {:induction false} OccursMeans(s: seq<char>, needle: seq<char>)
    ensures Occurs(s, needle) <==> exists i :: 0 <= i <= |s| && StartsAt(s, i, needle)
    decreases |s|
  {
    if !StartsAt(s, 0, needle) && s != [] {
      OccursMeans(s[1..], needle);
      OccursShift(s, needle);
    }
  }

  lemma {:induction false} OccursShift(s: seq<char>, needle: seq<char>)
    requires s != []
    ensures (exists i :: 0 <= i <= |s| - 1 && StartsAt(s[1..], i, needle))
        <==> (exists i :: 1 <= i <= |s| && StartsAt(s, i, needle))
  {
    forall i | 0 <= i <= |s| - 1 && StartsAt(s[1..], i, needle)
      ensures StartsAt(s, i + 1, needle)
    {
      assert s[1..][i..i + |needle|] == s[i + 1..i + 1 + |needle|];
    }
    forall i | 1 <= i <= |s| && StartsAt(s, i, needle)
      ensures StartsAt(s[1..], i - 1, needle)
    {
      assert s[1..][i - 1..i - 1 + |needle|] == s[i..i + |needle|];
    }
  }

  /** The quick test never hides an answer: the scan only reports a needle that occurs. */
  lemma {:induction false} QuickTestSound(s: seq<char>, i: nat, needle: seq<char>, depth: nat)
    requires i <= |s| && |needle| > 0
    requires GuardFrom(s, i, needle, depth)
    ensures exists j :: i <= j <= |s| && StartsAt(s, j, needle)
    decreases |s| - i
  {
    var piece := PieceAt(s, i, needle);
    var m := PieceText(piece, needle);
    PieceSpelled(s, i, needle);
    if !(depth == 0 && piece.Found?) {
      var depth' := if IsChar(m, '[') then depth + 1 else if depth == 0 then depth
        else if IsChar(m, ']') then depth - 1 else depth;
      QuickTestSound(s, i + |m|, needle, depth');
    }
  }

  lemma {:induction false} QuickTest(s: seq<char>, needle: seq<char>)
    ensures OccursUnescaped(s, needle) ==> Occurs(s, needle)
  {
    if OccursUnescaped(s, needle) {
      QuickTestSound(s, 0, needle, 0);
      OccursMeans(s, needle);
    }
  }

  /** The needle the rewriter looks for: the opener of an atomic group. */
  const AtomicOpener: seq<char> := "(?>"

  /** Where the needle `(?>` starts, character by character. */
  lemma {:induction false} OpenerAt(s: seq<char>, j: nat)
    ensures StartsAt(s, j, AtomicOpener)
        <==> j + 3 <= |s| && s[j] == '(' && s[j + 1] == '?' && s[j + 2] == '>'
  {
    if j + 3 <= |s| {
      assert s[j..j + 3] == [s[j], s[j + 1], s[j + 2]];
    }
  }

  /** A character that is neither a class bracket nor a backslash nor the start of `(?>`
      is one piece and changes nothing. */
  lemma {:induction false} GuardSkip(s: seq<char>, j: nat, d: nat, k: nat)
    requires j < |s| && s[j] != '\\' && s[j] != '[' && s[j] != ']' && k == j + 1
    requires !StartsAt(s, j, AtomicOpener)
    ensures GuardFrom(s, j, AtomicOpener, d) == GuardFrom(s, k, AtomicOpener, d)
  {
    assert PieceAt(s, j, AtomicOpener) == Single(s[j]);
  }

  /** A run of digits is skipped one piece per digit. */
  lemma {:induction false} GuardDigits(s: seq<char>, j: nat, k: nat, d: nat)
    requires j <= k <= |s|
    requires forall q :: j <= q < k ==> IsDigit(s[q])
    ensures GuardFrom(s, j, AtomicOpener, d) == GuardFrom(s, k, AtomicOpener, d)
    decreases k - j
  {
    if j < k {
      OpenerAt(s, j);
      GuardSkip(s, j, d, j + 1);
      GuardDigits(s, j + 1, k, d);
    }
  }

  /** An escape pair is one piece and changes nothing, whatever the depth. */
  lemma {:induction false} GuardEscapePair(s: seq<char>, i: nat, d: nat, k: nat)
    requires i + 1 < |s| && s[i] == '\\' && k == i + 2
    ensures GuardFrom(s, i, AtomicOpener, d) == GuardFrom(s, k, AtomicOpener, d)
  {
    OpenerAt(s, i);
    assert PieceAt(s, i, AtomicOpener) == Escape(s[i + 1]);
  }

  /** What one token of the rewrite loop's scanner does to the guard's scan from `i`: the
      scan reports the needle there exactly when the token is a `(?>` outside every class,
      and otherwise goes on after the token with the class depth the token leaves. */
  ghost predicate GuardSteps(s: seq<char>, i: nat, d: nat, t: Token)
  {
    i + Len(t) <= |s|
    && GuardFrom(s, i, AtomicOpener, d)
       == ((d == 0 && t == GroupStart('>')) || GuardFrom(s, i + Len(t), AtomicOpener, Step(t, d)))
  }

  /** A token other than `(?>` that the scan passes over without reporting anything. */
  lemma {:induction false} PlainStep(s: seq<char>, i: nat, d: nat, t: Token, j: nat)
    requires j <= i + Len(t) <= |s| && t != GroupStart('>') && Step(t, d) == d
    requires GuardFrom(s, i, AtomicOpener, d) == GuardFrom(s, j, AtomicOpener, d)
    requires GuardFrom(s, j, AtomicOpener, d) == GuardFrom(s, i + Len(t), AtomicOpener, d)
    ensures GuardSteps(s, i, d, t)
  {
  }

  /** `(?>` is the needle itself. */
  lemma {:induction false} GuardOpener(s: seq<char>, i: nat, d: nat, t: Token)
    requires i < |s| && t == NextToken(s, i) && t == GroupStart('>')
    ensures GuardSteps(s, i, d, t)
  {
    OpenerAt(s, i);
    assert PieceAt(s, i, AtomicOpener) == Found;
    assert Len(t) == 3 && Step(t, d) == d;
  }

  /** A group start other than `(?>` is three plain pieces. */
  lemma {:induction false} GuardOtherGroup(s: seq<char>, i: nat, d: nat, t: Token)
    requires i < |s| && t == NextToken(s, i) && t.GroupStart? && t != GroupStart('>')
    ensures GuardSteps(s, i, d, t)
  {
    assert IsGroupStartAt(s, i) && s[i + 2] == t.delim;
    assert Len(t) == 3 && Step(t, d) == d;
    OpenerAt(s, i);
    OpenerAt(s, i + 1);
    OpenerAt(s, i + 2);
    GuardSkip(s, i, d, i + 1);
    GuardSkip(s, i + 1, d, i + 2);
    GuardSkip(s, i + 2, d, i + Len(t));
    PlainStep(s, i, d, t, i + 2);
  }

  /** A run of digits, taken greedily, is skipped one piece per digit. */
  lemma {:induction false} GuardDigitRun(s: seq<char>, j: nat, k: nat, d: nat)
    requires j <= |s| && k == j + DigitRun(s, j)
    ensures GuardFrom(s, j, AtomicOpener, d) == GuardFrom(s, k, AtomicOpener, d)
  {
    DigitRunIsLongest(s, j);
    GuardDigits(s, j, k, d);
  }

  /** A numbered backreference is an escape pair and then one piece per further digit. */
  lemma {:induction false} GuardBackref(s: seq<char>, i: nat, d: nat, t: Token)
    requires i < |s| && t == NextToken(s, i) && t.NumberedBackref?
    ensures GuardSteps(s, i, d, t)
  {
    GuardBackrefPieces(s, i, d, i + Len(t));
    assert Step(t, d) == d;
  }

  /** The text of a numbered backreference is skipped piece by piece. */
  lemma {:induction false} GuardBackrefPieces(s: seq<char>, i: nat, d: nat, k: nat)
    requires i + 1 < |s| && s[i] == '\\' && k == i + 2 + DigitRun(s, i + 2)
    ensures GuardFrom(s, i, AtomicOpener, d) == GuardFrom(s, k, AtomicOpener, d)
  {
    GuardEscapePair(s, i, d, i + 2);
    GuardDigitRun(s, i + 2, k, d);
  }

  /** An escape pair that is not a numbered backreference is one piece. */
  lemma {:induction false} GuardEscaped(s: seq<char>, i: nat, d: nat, t: Token)
    requires i < |s| && t == NextToken(s, i) && t.Escaped?
    ensures GuardSteps(s, i, d, t)
  {
    assert i + 1 < |s| && s[i] == '\\';
    assert Len(t) == 2 && Step(t, d) == d;
    GuardEscapePair(s, i, d, i + Len(t));
    PlainStep(s, i, d, t, i + Len(t));
  }

  /** A single character that the token scanner also reads alone. */
  lemma {:induction false} GuardChar(s: seq<char>, i: nat, d: nat, t: Token)
    requires i < |s| && t == NextToken(s, i) && t.Char?
    ensures GuardSteps(s, i, d, t)
  {
    assert t == Char(s[i]) && Len(t) == 1;
    OpenerAt(s, i);
    assert PieceAt(s, i, AtomicOpener) == Single(s[i]);
  }

  /** The guard's pieces over one token of the rewrite loop. */
  lemma {:induction false} GuardToken(s: seq<char>, i: nat, d: nat, t: Token)
    requires i < |s| && t == NextToken(s, i)
    ensures GuardSteps(s, i, d, t)
  {
    if t == GroupStart('>') {
      GuardOpener(s, i, d, t);
    } else if t.GroupStart? {
      GuardOtherGroup(s, i, d, t);
    } else if t.NumberedBackref? {
      GuardBackref(s, i, d, t);
    } else if t.Escaped? {
      GuardEscaped(s, i, d, t);
    } else {
      GuardChar(s, i, d, t);
    }
  }

  lemma {:induction false} CountsStep(g0: bool, g1: bool, c0: nat, c1: nat, hit: bool)
    requires g0 == (hit || g1) && c0 == (if hit then 1 else 0) + c1 && g1 == (c1 > 0)
    ensures g0 == (c0 > 0)
  {
  }

  /** The guard scan from `i` reports `(?>` exactly when the token stream from `i` holds a
      `(?>` outside every class. */
  lemma {:induction false} GuardCountsOpeners(s: seq<char>, i: nat, d: nat)
    requires i <= |s|
    ensures GuardFrom(s, i, AtomicOpener, d) == (CountAt0(Lex(s[i..]), d, Opener) > 0)
    decreases |s| - i
  {
    if i == |s| {
      GuardCountsEnd(s, i, d);
    } else {
      var t := NextToken(s, i);
      GuardCountsOpeners(s, i + Len(t), Step(t, d));
      GuardCountsCons(s, i, d, t);
    }
  }

  lemma {:induction false} GuardCountsEnd(s: seq<char>, i: nat, d: nat)
    requires i == |s|
    ensures GuardFrom(s, i, AtomicOpener, d) == (CountAt0(Lex(s[i..]), d, Opener) > 0)
  {
    assert s[i..] == [];
  }

  /** The inductive step of GuardCountsOpeners: one token further. */
  lemma {:induction false} GuardCountsCons(s: seq<char>, i: nat, d: nat, t: Token)
    requires i < |s| && t == NextToken(s, i) && i + Len(t) <= |s|
    requires GuardFrom(s, i + Len(t), AtomicOpener, Step(t, d))
          == (CountAt0(Lex(s[i + Len(t)..]), Step(t, d), Opener) > 0)
    ensures GuardFrom(s, i, AtomicOpener, d) == (CountAt0(Lex(s[i..]), d, Opener) > 0)
  {
    GuardToken(s, i, d, t);
    CountAt(s, i, d, t, Opener);
    assert Is(t, Opener) == (t == GroupStart('>'));
    CountsStep(GuardFrom(s, i, AtomicOpener, d), GuardFrom(s, i + Len(t), AtomicOpener, Step(t, d)),
      CountAt0(Lex(s[i..]), d, Opener), CountAt0(Lex(s[i + Len(t)..]), Step(t, d), Opener),
      d == 0 && t == GroupStart('>'));
  }

  /** The guard says yes exactly when some `(?>` token lies outside every class. */
  lemma {:induction false} GuardIffOpener(s: seq<char>)
    ensures OccursUnescaped(s, AtomicOpener) <==> CountAt0(Lex(s), 0, Opener) > 0
  {
    GuardCountsOpeners(s, 0, 0);
    assert s[0..] == s;
  }

  /** The guard: the quick test, then the scan. */
  method HasUnescapedInDefaultRegexContext(pattern: seq<char>, needle: seq<char>) returns (found: bool)
    ensures found == OccursUnescaped(pattern, needle)
  {
    if !Occurs(pattern, needle) {
      QuickTest(pattern, needle);
      return false;
    }
    if needle == [] {
      return false;
    }
    found := ScanForNeedle(pattern, needle);
  }

  /** The scan of the guard, piece by piece, with an early exit at the first needle found
      outside every class. */
  method ScanForNeedle(pattern: seq<char>, needle: seq<char>) returns (found: bool)
    requires |needle| > 0
    ensures found == GuardFrom(pattern, 0, needle, 0)
  {
    ghost var answer := GuardFrom(pattern, 0, needle, 0);
    var i := 0;
    var numCharClassesOpen := 0;
    while i < |pattern|
      invariant i <= |pattern|
      invariant GuardFrom(pattern, i, needle, numCharClassesOpen) == answer
      decreases |pattern| - i
    {
      var piece := PieceAt(pattern, i, needle);
      var m := PieceText(piece, needle);
      GuardPiece(pattern, i, needle, numCharClassesOpen);
      if IsChar(m, '[') {
        numCharClassesOpen := numCharClassesOpen + 1;
      } else if numCharClassesOpen == 0 {
        if piece.Found? {
          return true;
        }
      } else if IsChar(m, ']') {
        numCharClassesOpen := numCharClassesOpen - 1;
      }
      i := i + |m|;
    }
    return false;
  }
}
