/** Character-class depth bookkeeping shared by the guard and the rewrite loop:
    `[` opens a class at any depth, `]` closes one only when a class is open, and
    group and backreference logic is looked at only outside every class. */
module ClassDepth {
  import opened Tokens

  /** The class depth after one token, given the depth before it. */
  function Step(t: Token, d: nat): (d': nat)
  {
    if t == Char('[') then d + 1
    else if t == Char(']') && d > 0 then d - 1
    else d
  }

  /** The class depth after a run of tokens. */
  function DepthAfter(ts: seq<Token>, d: nat): (d': nat)
    decreases |ts|
  {
    if ts == [] then d else DepthAfter(ts[1..], Step(ts[0], d))
  }

  /** The token kinds the rewrite loop reacts to outside a class. */
  datatype Kind =
    | Opener       // `(?>`
    | AnyGroup     // any `(?` followed by one of `:=!<>`
    | CloseParen   // an unescaped `)`
    | Backref      // `\` followed by a digit 1-9 and further digits

  predicate Is(t: Token, k: Kind)
  {
    match k
    case Opener => t == GroupStart('>')
    case AnyGroup => t.GroupStart?
    case CloseParen => t == Char(')')
    case Backref => t.NumberedBackref?
  }

  /** How many tokens of kind `k` occur outside every class, starting at depth `d`. */
  function CountAt0(ts: seq<Token>, d: nat, k: Kind): (count: nat)
    decreases |ts|
  {
    if ts == [] then 0
    else (if d == 0 && Is(ts[0], k) then 1 else 0) + CountAt0(ts[1..], Step(ts[0], d), k)
  }

  /** Number of `]` tokens in a run. */
  function Closers(ts: seq<Token>): (count: nat)
    decreases |ts|
  {
    if ts == [] then 0 else (if ts[0] == Char(']') then 1 else 0) + Closers(ts[1..])
  }

  lemma {:induction false} DepthCons(t: Token, ts: seq<Token>, d: nat)
    ensures DepthAfter([t] + ts, d) == DepthAfter(ts, Step(t, d))
  {
    assert ([t] + ts)[1..] == ts;
  }

  lemma {:induction false} CountCons(t: Token, ts: seq<Token>, d: nat, k: Kind)
    ensures CountAt0([t] + ts, d, k) == (if d == 0 && Is(t, k) then 1 else 0) + CountAt0(ts, Step(t, d), k)
  {
    assert ([t] + ts)[1..] == ts;
  }

  lemma {:induction false} DepthAppend(a: seq<Token>, b: seq<Token>, d: nat)
    ensures DepthAfter(a + b, d) == DepthAfter(b, DepthAfter(a, d))
    decreases |a|
  {
    if a == [] {
      assert a + b == b;
    } else {
      assert (a + b)[1..] == a[1..] + b;
      DepthAppend(a[1..], b, Step(a[0], d));
    }
  }

  /** Counting over a concatenation: the second part starts at the depth the first leaves. */
  lemma {:induction false} CountAppend(a: seq<Token>, b: seq<Token>, d: nat, k: Kind)
    ensures CountAt0(a + b, d, k) == CountAt0(a, d, k) + CountAt0(b, DepthAfter(a, d), k)
    decreases |a|
  {
    if a == [] {
      assert a + b == b;
    } else {
      assert (a + b)[1..] == a[1..] + b;
      CountAppend(a[1..], b, Step(a[0], d), k);
    }
  }

  /** Inside a class that the run cannot close, no token is counted and the depth stays
      positive: the depth never goes below the number of opens minus the number of `]`. */
  lemma {:induction false} ClassShields(ts: seq<Token>, d: nat, k: Kind)
    requires d > Closers(ts)
    ensures CountAt0(ts, d, k) == 0
    ensures DepthAfter(ts, d) >= d - Closers(ts) > 0
    decreases |ts|
  {
    if ts != [] {
      ClassShields(ts[1..], Step(ts[0], d), k);
    }
  }

  /** Plain characters other than brackets neither move the depth nor count as openers,
      group starts or backreferences. */
  lemma {:induction false} CharsNeutral(cs: seq<char>, d: nat, k: Kind)
    requires forall q :: 0 <= q < |cs| ==> cs[q] != '[' && cs[q] != ']'
    requires k != CloseParen
    ensures DepthAfter(Chars(cs), d) == d
    ensures CountAt0(Chars(cs), d, k) == 0
    decreases |cs|
  {
    if cs != [] {
      CountCons(Char(cs[0]), Chars(cs[1..]), d, k);
      DepthCons(Char(cs[0]), Chars(cs[1..]), d);
      CharsNeutral(cs[1..], d, k);
    }
  }

  /** No character of `cs` opens or closes a class or closes a group. */
  predicate Quiet(cs: seq<char>)
  {
    forall q :: 0 <= q < |cs| ==> cs[q] != '[' && cs[q] != ']' && cs[q] != ')'
  }

  /** Plain characters other than brackets and `)` count no `)`. */
  lemma {:induction false} CharsNoClose(cs: seq<char>, d: nat)
    requires Quiet(cs)
    ensures CountAt0(Chars(cs), d, CloseParen) == 0
    decreases |cs|
  {
    if cs != [] {
      CountCons(Char(cs[0]), Chars(cs[1..]), d, CloseParen);
      assert Quiet(cs[1..]) by {
        forall q | 0 <= q < |cs[1..]| ensures cs[1..][q] == cs[q + 1] { }
      }
      CharsNoClose(cs[1..], Step(Char(cs[0]), d));
    }
  }

  /** Counting over the token stream of a text, one token at a time. */
  lemma {:induction false} CountAt(s: seq<char>, i: nat, d: nat, t: Token, k: Kind)
    requires i < |s| && t == NextToken(s, i)
    ensures i + Len(t) <= |s|
    ensures CountAt0(Lex(s[i..]), d, k)
         == (if d == 0 && Is(t, k) then 1 else 0) + CountAt0(Lex(s[i + Len(t)..]), Step(t, d), k)
  {
    LexAt(s, i);
    CountCons(t, Lex(s[i + Len(t)..]), d, k);
  }
}
