/** One pass of the rewrite loop of transformAtomicGroups: a scan from the start of the
    pattern that finds the first `(?>` outside every class and its matching `)`, or runs
    into a numbered backreference outside every class, or reaches the end. */
module Pass {
  import opened Tokens
  import opened ClassDepth

  datatype Option<T> = None | Some(value: T)

  /** How a pass ends. */
  datatype Outcome =
    | NoRewrite                                  // end of pattern, nothing rewritten
    | Rewrite(start: nat, close: nat)            // `(?>` at `start` closes with the `)` at `close`
    | BackrefAbort(pos: nat, escape: seq<char>)  // numbered backreference found at `pos`

  /** What the inner loop keeps between tokens: the class depth, the position of the tracked
      `(?>` if there is one, and the number of groups opened inside it and not yet closed. */
  datatype Scan = Scan(depth: nat, atomicStart: Option<nat>, nested: nat)

  datatype Progress = Continue(next: Scan) | Stop(outcome: Outcome)

  /** The loop body for one token `t` found at position `pos`. */
  function Advance(t: Token, pos: nat, st: Scan): (progress: Progress)
  {
    if t == Char('[') then Continue(st.(depth := st.depth + 1))
    else if st.depth == 0 then
      if t == GroupStart('>') && st.atomicStart.None? then Continue(st.(atomicStart := Some(pos)))
      else if t.GroupStart? && st.atomicStart.Some? then Continue(st.(nested := st.nested + 1))
      else if t == Char(')') && st.atomicStart.Some? then
        if st.nested == 0 then Stop(Rewrite(st.atomicStart.value, pos))
        else Continue(st.(nested := st.nested - 1))
      else if t.NumberedBackref? then Stop(BackrefAbort(pos, Spelling(t)))
      else Continue(st)
    else if t == Char(']') then Continue(st.(depth := st.depth - 1))
    else Continue(st)
  }

  /** The pass over the tokens `ts`, the first of which starts at character `pos`. */
  function ScanPass(ts: seq<Token>, pos: nat, st: Scan): (outcome: Outcome)
    decreases |ts|
  {
    if ts == [] then NoRewrite
    else
      match Advance(ts[0], pos, st)
      case Stop(o) => o
      case Continue(st') => ScanPass(ts[1..], pos + Len(ts[0]), st')
  }

  /** The pass as the loop runs it: the token regex applied at `pos` of the pattern, its
      match handed to the loop body, and the regex applied again where the match ends. */
  function PassFrom(s: seq<char>, pos: nat, st: Scan): (outcome: Outcome)
    requires pos <= |s|
    decreases |s| - pos
  {
    if pos == |s| then NoRewrite
    else
      var t := NextToken(s, pos);
      match Advance(t, pos, st)
      case Stop(o) => o
      case Continue(st') => PassFrom(s, pos + Len(t), st')
  }

  /** A pass over a whole pattern: from index 0, outside every class, tracking nothing. */
  function PassOf(s: seq<char>): (outcome: Outcome)
  {
    PassFrom(s, 0, Scan(0, None, 0))
  }

  /** The `)` at the end of `b` is the first one outside every class at which the groups
      opened inside the tracked group (plus `nested` already open) are all closed again. */
  ghost predicate ClosesFirst(b: seq<Token>, d: nat, nested: nat)
  {
    && DepthAfter(b, d) == 0
    && nested + CountAt0(b, d, AnyGroup) == CountAt0(b, d, CloseParen)
    && forall k :: 0 <= k < |b| && b[k] == Char(')') && DepthAfter(b[..k], d) == 0 ==>
         CountAt0(b[..k], d, CloseParen) < nested + CountAt0(b[..k], d, AnyGroup)
  }

  lemma {:induction false} PrefixCons(t: Token, ts: seq<Token>, k: nat)
    requires 1 <= k <= |ts| + 1
    ensures ([t] + ts)[..k] == [t] + ts[..k - 1]
  {
  }

  /** A token other than a `)` outside every class keeps the matching `)` where it was. */
  lemma {:induction false} ClosesFirstCons(t: Token, b: seq<Token>, d: nat, nested: nat, nested': nat)
    requires d == 0 ==> t != Char(')')
    requires ClosesFirst(b, Step(t, d), nested')
    requires d > 0 ==> Step(t, d) == d || t == Char('[') || t == Char(']')
    requires nested' == nested + (if d == 0 && t.GroupStart? then 1 else 0)
    ensures ClosesFirst([t] + b, d, nested)
  {
    var b' := [t] + b;
    DepthCons(t, b, d);
    CountCons(t, b, d, AnyGroup);
    CountCons(t, b, d, CloseParen);
    forall k | 0 <= k < |b'| && b'[k] == Char(')') && DepthAfter(b'[..k], d) == 0
      ensures CountAt0(b'[..k], d, CloseParen) < nested + CountAt0(b'[..k], d, AnyGroup)
    {
      assert k > 0;
      PrefixCons(t, b, k);
      DepthCons(t, b[..k - 1], d);
      CountCons(t, b[..k - 1], d, AnyGroup);
      CountCons(t, b[..k - 1], d, CloseParen);
      assert b[k - 1] == b'[k];
    }
  }

  /** A `)` outside every class that does not close the tracked group closes a nested one. */
  lemma {:induction false} ClosesFirstClose(b: seq<Token>, nested: nat)
    requires nested > 0
    requires ClosesFirst(b, 0, nested - 1)
    ensures ClosesFirst([Char(')')] + b, 0, nested)
  {
    var t := Char(')');
    var b' := [t] + b;
    DepthCons(t, b, 0);
    CountCons(t, b, 0, AnyGroup);
    CountCons(t, b, 0, CloseParen);
    forall k | 0 <= k < |b'| && b'[k] == Char(')') && DepthAfter(b'[..k], 0) == 0
      ensures CountAt0(b'[..k], 0, CloseParen) < nested + CountAt0(b'[..k], 0, AnyGroup)
    {
      if k > 0 {
        PrefixCons(t, b, k);
        DepthCons(t, b[..k - 1], 0);
        CountCons(t, b[..k - 1], 0, AnyGroup);
        CountCons(t, b[..k - 1], 0, CloseParen);
        assert b[k - 1] == b'[k];
      }
    }
  }

  lemma {:induction false} PrependToken(t: Token, rest: seq<Token>, b: seq<Token>, c: seq<Token>, pos: nat, p: nat)
    requires rest == b + [Char(')')] + c && p == pos + Len(t) + Width(b)
    ensures [t] + rest == ([t] + b) + [Char(')')] + c && p == pos + Width([t] + b)
  {
    WidthCons(t, b);
  }

  /** The loop body moves the class depth as the class-depth rule says. */
  lemma {:induction false} AdvanceDepth(t: Token, pos: nat, st: Scan)
    requires Advance(t, pos, st).Continue?
    ensures Advance(t, pos, st).next.depth == Step(t, st.depth)
  {
  }

  /** Close-paren matching: once a `(?>` is tracked, a pass that rewrites stops at the `)`
      that closes it, counting only `(?X` group starts as nested groups, and it met no
      numbered backreference outside a class on the way. */
  lemma {:induction false} TrackedCloses(ts: seq<Token>, pos: nat, d: nat, a: nat, nested: nat, a': nat, p: nat)
      returns (b: seq<Token>, c: seq<Token>)
    requires ScanPass(ts, pos, Scan(d, Some(a), nested)) == Rewrite(a', p)
    ensures a' == a
    ensures ts == b + [Char(')')] + c && p == pos + Width(b)
    ensures ClosesFirst(b, d, nested)
    ensures CountAt0(b, d, Backref) == 0
    decreases |ts|
  {
    var t := ts[0];
    var rest := ts[1..];
    var next := pos + Len(t);
    var st := Scan(d, Some(a), nested);
    assert ts == [t] + rest;
    if d == 0 && t == Char(')') && nested == 0 {
      b, c := [], rest;
      assert DepthAfter(b, d) == 0;
    } else {
      assert d == 0 ==> !t.NumberedBackref?;
      AdvanceDepth(t, pos, st);
      var nested' := Advance(t, pos, st).next.nested;
      assert Advance(t, pos, st).next == Scan(Step(t, d), Some(a), nested');
      var b', c' := TrackedCloses(rest, next, Step(t, d), a, nested', a', p);
      PrependToken(t, rest, b', c', pos, p);
      b, c := [t] + b', c';
      if d == 0 && t == Char(')') {
        ClosesFirstClose(b', nested);
      } else {
        ClosesFirstCons(t, b', d, nested, nested');
      }
      CountCons(t, b', d, Backref);
    }
  }

  /** Outer before inner: a pass that rewrites tracks the first `(?>` outside every class;
      before it there is no numbered backreference outside a class, and from it on the pass
      looks for the matching `)`. */
  lemma {:induction false} FindsFirstOpener(ts: seq<Token>, pos: nat, d: nat, nested: nat, a: nat, p: nat)
      returns (pre: seq<Token>, rest: seq<Token>)
    requires ScanPass(ts, pos, Scan(d, None, nested)) == Rewrite(a, p)
    ensures ts == pre + [GroupStart('>')] + rest && a == pos + Width(pre)
    ensures DepthAfter(pre, d) == 0
    ensures CountAt0(pre, d, Opener) == 0 && CountAt0(pre, d, Backref) == 0
    ensures ScanPass(rest, a + 3, Scan(0, Some(a), nested)) == Rewrite(a, p)
    decreases |ts|
  {
    var t := ts[0];
    var st := Scan(d, None, nested);
    assert ts == [t] + ts[1..];
    if d == 0 && t == GroupStart('>') {
      pre, rest := [], ts[1..];
      var _, _ := TrackedCloses(rest, pos + 3, 0, pos, nested, a, p);
    } else {
      assert d == 0 ==> !t.NumberedBackref?;
      AdvanceDepth(t, pos, st);
      assert Advance(t, pos, st).next == Scan(Step(t, d), None, nested);
      var pre', rest' := FindsFirstOpener(ts[1..], pos + Len(t), Step(t, d), nested, a, p);
      pre, rest := [t] + pre', rest';
      assert ts == pre + [GroupStart('>')] + rest;
      WidthCons(t, pre');
      DepthCons(t, pre', d);
      CountCons(t, pre', d, Opener);
      CountCons(t, pre', d, Backref);
    }
  }

  /** A rewriting pass over a pattern splits its tokens into the text before the tracked `(?>`,
      the body, the matching `)` and the rest, at the positions the pass reports. */
  lemma {:induction false} PassSplit(s: seq<char>, a: nat, p: nat) returns (pre: seq<Token>, body: seq<Token>, post: seq<Token>)
    requires PassOf(s) == Rewrite(a, p)
    ensures Lex(s) == pre + [GroupStart('>')] + body + [Char(')')] + post
    ensures Width(pre) == a && p == a + 3 + Width(body)
    ensures DepthAfter(pre, 0) == 0
    ensures CountAt0(pre, 0, Opener) == 0 && CountAt0(pre, 0, Backref) == 0
    ensures ClosesFirst(body, 0, 0) && CountAt0(body, 0, Backref) == 0
  {
    PassFromTokens(s, 0, Scan(0, None, 0));
    assert s[0..] == s;
    var rest;
    pre, rest := FindsFirstOpener(Lex(s), 0, 0, 0, a, p);
    body, post := TrackedCloses(rest, a + 3, 0, a, 0, a, p);
  }

  /** The tokens `ts` split as `pre (?> body ) post`, where `pre` closes its classes and holds
      no `(?>` and no numbered backreference outside a class, and the `)` after `body` is the
      one that closes the `(?>`, with no numbered backreference outside a class before it. */
  ghost predicate MatchedOpener(ts: seq<Token>, pre: seq<Token>, body: seq<Token>, post: seq<Token>)
  {
    && ts == pre + [GroupStart('>')] + body + [Char(')')] + post
    && DepthAfter(pre, 0) == 0
    && CountAt0(pre, 0, Opener) == 0 && CountAt0(pre, 0, Backref) == 0
    && ClosesFirst(body, 0, 0) && CountAt0(body, 0, Backref) == 0
  }

  /** The converse of ClosesFirstCons and ClosesFirstClose: past the first token of `b`, the
      `)` at its end is still the first to close the tracked group, with the nested count the
      loop body leaves. */
  lemma {:induction false} ClosesFirstTail(t: Token, b: seq<Token>, d: nat, nested: nat, nested': nat)
    requires ClosesFirst([t] + b, d, nested)
    requires nested' + (if d == 0 && t == Char(')') then 1 else 0)
          == nested + (if d == 0 && t.GroupStart? then 1 else 0)
    ensures ClosesFirst(b, Step(t, d), nested')
  {
    var b' := [t] + b;
    var d' := Step(t, d);
    DepthCons(t, b, d);
    CountCons(t, b, d, AnyGroup);
    CountCons(t, b, d, CloseParen);
    forall k | 0 <= k < |b| && b[k] == Char(')') && DepthAfter(b[..k], d') == 0
      ensures CountAt0(b[..k], d', CloseParen) < nested' + CountAt0(b[..k], d', AnyGroup)
    {
      PrefixCons(t, b, k + 1);
      DepthCons(t, b[..k], d);
      CountCons(t, b[..k], d, AnyGroup);
      CountCons(t, b[..k], d, CloseParen);
      assert b'[k + 1] == b[k];
    }
  }

  /** A `)` outside every class that the tracked group does not close has a nested group to
      close. */
  lemma {:induction false} ClosesFirstHead(b: seq<Token>, nested: nat)
    requires ClosesFirst([Char(')')] + b, 0, nested)
    ensures nested > 0
  {
    var b' := [Char(')')] + b;
    assert b'[0] == Char(')') && b'[..0] == [];
  }

  /** Conversely to TrackedCloses: once a group is tracked, the pass rewrites at the `)` that
      closes it, provided no numbered backreference outside a class comes first. */
  lemma {:induction false} ReachesClose(b: seq<Token>, c: seq<Token>, pos: nat, d: nat, a: nat, nested: nat)
    requires ClosesFirst(b, d, nested) && CountAt0(b, d, Backref) == 0
    ensures ScanPass(b + [Char(')')] + c, pos, Scan(d, Some(a), nested)) == Rewrite(a, pos + Width(b))
    decreases |b|
  {
    var st := Scan(d, Some(a), nested);
    if b == [] {
      assert b + [Char(')')] + c == [Char(')')] + c;
      ScanCons(Char(')'), c, pos, st);
    } else {
      var t := b[0];
      var b' := b[1..];
      assert b == [t] + b';
      assert b + [Char(')')] + c == [t] + (b' + [Char(')')] + c);
      CountCons(t, b', d, Backref);
      if d == 0 && t == Char(')') {
        ClosesFirstHead(b', nested);
      }
      var nested' := nested + (if d == 0 && t.GroupStart? then 1 else 0)
                            - (if d == 0 && t == Char(')') then 1 else 0);
      assert Advance(t, pos, st) == Continue(Scan(Step(t, d), Some(a), nested'));
      ClosesFirstTail(t, b', d, nested, nested');
      ReachesClose(b', c, pos + Len(t), Step(t, d), a, nested');
      ScanCons(t, b' + [Char(')')] + c, pos, st);
      WidthCons(t, b');
    }
  }

  /** Conversely to FindsFirstOpener: before the first `(?>` outside every class, and with no
      numbered backreference outside a class, the pass goes on and starts tracking it. */
  lemma {:induction false} ReachesOpener(pre: seq<Token>, rest: seq<Token>, pos: nat, d: nat, nested: nat)
    requires DepthAfter(pre, d) == 0
    requires CountAt0(pre, d, Opener) == 0 && CountAt0(pre, d, Backref) == 0
    ensures ScanPass(pre + [GroupStart('>')] + rest, pos, Scan(d, None, nested))
         == ScanPass(rest, pos + Width(pre) + 3, Scan(0, Some(pos + Width(pre)), nested))
    decreases |pre|
  {
    var st := Scan(d, None, nested);
    if pre == [] {
      assert pre + [GroupStart('>')] + rest == [GroupStart('>')] + rest;
      ScanCons(GroupStart('>'), rest, pos, st);
    } else {
      var t := pre[0];
      var pre' := pre[1..];
      assert pre == [t] + pre';
      assert pre + [GroupStart('>')] + rest == [t] + (pre' + [GroupStart('>')] + rest);
      DepthCons(t, pre', d);
      CountCons(t, pre', d, Opener);
      CountCons(t, pre', d, Backref);
      assert Advance(t, pos, st) == Continue(Scan(Step(t, d), None, nested));
      ReachesOpener(pre', rest, pos + Len(t), Step(t, d), nested);
      ScanCons(t, pre' + [GroupStart('>')] + rest, pos, st);
      WidthCons(t, pre');
    }
  }

  /** The converse of PassSplit: when the first `(?>` outside every class has a matching `)`
      and no numbered backreference outside a class comes before that `)`, the pass rewrites
      that group. */
  lemma {:induction false} SplitRewrites(s: seq<char>, pre: seq<Token>, body: seq<Token>, post: seq<Token>)
    ensures MatchedOpener(Lex(s), pre, body, post)
        ==> PassOf(s) == Rewrite(Width(pre), Width(pre) + 3 + Width(body))
  {
    if MatchedOpener(Lex(s), pre, body, post) {
      PassFromTokens(s, 0, Scan(0, None, 0));
      assert s[0..] == s;
      ReachesOpener(pre, body + [Char(')')] + post, 0, 0, 0);
      assert pre + [GroupStart('>')] + body + [Char(')')] + post
          == pre + [GroupStart('>')] + (body + [Char(')')] + post);
      ReachesClose(body, post, Width(pre) + 3, 0, Width(pre), 0);
    }
  }

  /** A pass that reaches the end of the pattern met no numbered backreference outside a class. */
  lemma {:induction false} NoRewriteNoBackref(ts: seq<Token>, pos: nat, st: Scan)
    requires ScanPass(ts, pos, st) == NoRewrite
    ensures CountAt0(ts, st.depth, Backref) == 0
    decreases |ts|
  {
    if ts != [] {
      var t := ts[0];
      assert st.depth == 0 ==> !t.NumberedBackref?;
      AdvanceDepth(t, pos, st);
      NoRewriteNoBackref(ts[1..], pos + Len(t), Advance(t, pos, st).next);
    }
  }

  /** Conversely, a pass that tracks nothing and meets no `(?>` and no numbered
      backreference outside a class reaches the end without rewriting. */
  lemma {:induction false} QuietPass(ts: seq<Token>, pos: nat, st: Scan)
    requires st.atomicStart.None?
    requires CountAt0(ts, st.depth, Opener) == 0 && CountAt0(ts, st.depth, Backref) == 0
    ensures ScanPass(ts, pos, st) == NoRewrite
    decreases |ts|
  {
    if ts != [] {
      var t := ts[0];
      assert ts == [t] + ts[1..];
      CountCons(t, ts[1..], st.depth, Opener);
      CountCons(t, ts[1..], st.depth, Backref);
      AdvanceDepth(t, pos, st);
      assert Advance(t, pos, st) == Continue(st.(depth := Step(t, st.depth)));
      QuietPass(ts[1..], pos + Len(t), st.(depth := Step(t, st.depth)));
    }
  }

  /** A pass that aborts has run into a numbered backreference outside every class: the
      token at the reported position, whose text is the escape it reports. */
  lemma {:induction false} AbortHasBackref(ts: seq<Token>, pos: nat, st: Scan)
    requires ScanPass(ts, pos, st).BackrefAbort?
    ensures CountAt0(ts, st.depth, Backref) > 0
    ensures var o := ScanPass(ts, pos, st);
      exists k :: 0 <= k < |ts| && ts[k].NumberedBackref? && DepthAfter(ts[..k], st.depth) == 0
        && Spelling(ts[k]) == o.escape && o.pos == pos + Width(ts[..k])
    decreases |ts|
  {
    var t := ts[0];
    var o := ScanPass(ts, pos, st);
    assert ts[..0] == [];
    if Advance(t, pos, st).Stop? {
      assert st.depth == 0 && t.NumberedBackref? && o == BackrefAbort(pos, Spelling(t));
      assert ts[0] == t;
    } else {
      var st' := Advance(t, pos, st).next;
      AdvanceDepth(t, pos, st);
      AbortHasBackref(ts[1..], pos + Len(t), st');
      var k :| 0 <= k < |ts[1..]| && ts[1..][k].NumberedBackref? && DepthAfter(ts[1..][..k], st'.depth) == 0
        && Spelling(ts[1..][k]) == o.escape && o.pos == pos + Len(t) + Width(ts[1..][..k]);
      assert ts[k + 1] == ts[1..][k];
      assert ts[..k + 1] == [t] + ts[1..][..k];
      DepthCons(t, ts[1..][..k], st.depth);
      WidthCons(t, ts[1..][..k]);
    }
  }

  lemma {:induction false} ScanCons(t: Token, rest: seq<Token>, pos: nat, st: Scan)
    ensures ScanPass([t] + rest, pos, st) ==
      match Advance(t, pos, st)
      case Stop(o) => o
      case Continue(st') => ScanPass(rest, pos + Len(t), st')
  {
    assert ([t] + rest)[0] == t && ([t] + rest)[1..] == rest;
  }

  /** The pass the loop runs from `pos` is the pass over the token stream of the rest of
      the pattern. */
  ghost predicate ReadsTokens(s: seq<char>, pos: nat, st: Scan)
    requires pos <= |s|
  {
    PassFrom(s, pos, st) == ScanPass(Lex(s[pos..]), pos, st)
  }

  lemma {:induction false} PassFromTokens(s: seq<char>, pos: nat, st: Scan)
    requires pos <= |s|
    ensures PassFrom(s, pos, st) == ScanPass(Lex(s[pos..]), pos, st)
  {
    PassReadsTokens(s, pos, st);
  }

  lemma {:induction false} PassReadsTokens(s: seq<char>, pos: nat, st: Scan)
    requires pos <= |s|
    ensures ReadsTokens(s, pos, st)
    decreases |s| - pos
  {
    if pos < |s| {
      var t := NextToken(s, pos);
      match Advance(t, pos, st)
      case Stop(o) =>
        TokensStop(s, pos, st, t, o);
      case Continue(st') =>
        PassReadsTokens(s, pos + Len(t), st');
        TokensContinue(s, pos, st, t, st');
    } else {
      assert s[pos..] == [];
    }
  }

  /** A token at which the loop body stops ends both passes with the same outcome. */
  lemma {:induction false} TokensStop(s: seq<char>, pos: nat, st: Scan, t: Token, o: Outcome)
    requires pos < |s| && t == NextToken(s, pos) && Advance(t, pos, st) == Stop(o)
    ensures ReadsTokens(s, pos, st)
  {
    LexAt(s, pos);
    ScanCons(t, Lex(s[pos + Len(t)..]), pos, st);
    PassStep(s, pos, st);
  }

  /** A token after which the loop goes on is read by both passes alike. */
  lemma {:induction false} TokensContinue(s: seq<char>, pos: nat, st: Scan, t: Token, st': Scan)
    requires pos < |s| && t == NextToken(s, pos) && Advance(t, pos, st) == Continue(st')
    requires pos + Len(t) <= |s| && ReadsTokens(s, pos + Len(t), st')
    ensures ReadsTokens(s, pos, st)
  {
    LexAt(s, pos);
    PassStep(s, pos, st);
    ContinueBoth(s, pos, st, t, st', Lex(s[pos..]), Lex(s[pos + Len(t)..]));
  }

  lemma {:induction false} ContinueBoth(s: seq<char>, pos: nat, st: Scan, t: Token, st': Scan, ts: seq<Token>, rest: seq<Token>)
    requires pos + Len(t) <= |s| && ts == [t] + rest && Advance(t, pos, st) == Continue(st')
    requires PassFrom(s, pos, st) == PassFrom(s, pos + Len(t), st')
    requires PassFrom(s, pos + Len(t), st') == ScanPass(rest, pos + Len(t), st')
    ensures PassFrom(s, pos, st) == ScanPass(ts, pos, st)
  {
    ScanCons(t, rest, pos, st);
  }

  /** One token of the pass: where the loop body stops, the pass's outcome; where it goes on,
      the pass from the end of the token with the new scan state. */
  lemma {:induction false} PassStep(s: seq<char>, pos: nat, st: Scan)
    requires pos < |s|
    ensures var t := NextToken(s, pos);
      && pos + Len(t) <= |s|
      && PassFrom(s, pos, st)
         == match Advance(t, pos, st)
            case Stop(o) => o
            case Continue(st') => PassFrom(s, pos + Len(t), st')
  {
  }

  /** The inner loop of transformAtomicGroups: one scan of the pattern with the token regex,
      from index 0 to the first rewrite, abort or the end. */
  method RunPass(pattern: seq<char>) returns (outcome: Outcome)
    ensures outcome == PassOf(pattern)
  {
    var classDepth: nat := 0;
    var nestedGroups: nat := 0;
    var atomicStart: Option<nat> := None;
    var pos := 0;
    ghost var answer := PassOf(pattern);
    while pos < |pattern|
      invariant pos <= |pattern|
      invariant PassFrom(pattern, pos, Scan(classDepth, atomicStart, nestedGroups)) == answer
      decreases |pattern| - pos
    {
      var t := NextToken(pattern, pos);
      PassStep(pattern, pos, Scan(classDepth, atomicStart, nestedGroups));
      if t == Char('[') {
        classDepth := classDepth + 1;
      } else if classDepth == 0 {
        if t == GroupStart('>') && atomicStart.None? {
          atomicStart := Some(pos);
        } else if t.GroupStart? && atomicStart.Some? {
          nestedGroups := nestedGroups + 1;
        } else if t == Char(')') && atomicStart.Some? {
          if nestedGroups == 0 {
            return Rewrite(atomicStart.value, pos);
          }
          nestedGroups := nestedGroups - 1;
        } else if t.NumberedBackref? {
          return BackrefAbort(pos, Spelling(t));
        }
      } else if t == Char(']') {
        classDepth := classDepth - 1;
      }
      pos := pos + Len(t);
    }
    return NoRewrite;
  }
}
