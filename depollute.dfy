/** The last step of the transform: the marker names the rewrite loop put in are taken out
    again, so that the result's groups object is not polluted. Outside every class, each
    `(?<$AG$k>` becomes a plain `(` and each `\k<$AG$k>` becomes the numbered
    backreference `\k`. The scan that finds them is the escape-aware, class-aware scan of
    the shared replacement helper, which is not part of this model; it is written here as
    that helper is used: the marker forms are tried first, then an optional `\` plus one
    character, with the same class depth bookkeeping as the guard. */
module Depollution {
  import opened Tokens
  import opened Rewrite

  /** The fixed part before the digits of a named marker group. */
  const NamedPrefix: seq<char> := "(?<$AG$"

  /** The fixed part before the digits of a backreference to a marker. */
  const RefPrefix: seq<char> := "\\k<$AG$"

  /** Whether a marker form with the given fixed prefix starts at `i`: the prefix, one or
      more digits (taken greedily), then `>`. */
  predicate MarkerFormAt(s: seq<char>, i: nat, prefix: seq<char>)
    requires |prefix| == 7
  {
    i + 7 <= |s| && s[i..i + 7] == prefix
    && DigitRun(s, i + 7) > 0
    && i + 7 + DigitRun(s, i + 7) < |s| && s[i + 7 + DigitRun(s, i + 7)] == '>'
  }

  /** The depolluted text of `s` from `i` on, with `depth` classes open there. */
  function DepolluteFrom(s: seq<char>, i: nat, depth: nat): (r: seq<char>)
    requires i <= |s|
    decreases |s| - i
  {
    if i == |s| then []
    else if depth == 0 && MarkerFormAt(s, i, NamedPrefix) then
      "(" + DepolluteFrom(s, i + 8 + DigitRun(s, i + 7), depth)
    else if depth == 0 && MarkerFormAt(s, i, RefPrefix) then
      ['\\'] + s[i + 7..i + 7 + DigitRun(s, i + 7)] + DepolluteFrom(s, i + 8 + DigitRun(s, i + 7), depth)
    else
      var w := if s[i] == '\\' && i + 1 < |s| then 2 else 1;
      var m := s[i..i + w];
      var depth' := if IsChar(m, '[') then depth + 1 else if IsChar(m, ']') && depth > 0 then depth - 1 else depth;
      m + DepolluteFrom(s, i + w, depth')
  }

  /** The depolluted pattern. */
  function Depollute(s: seq<char>): (r: seq<char>)
  {
    DepolluteFrom(s, 0, 0)
  }

  /** A text without `$` holds no marker, and depollution leaves it as it is. */
  lemma {:induction false} DepolluteKeepsPlainText(s: seq<char>, i: nat, depth: nat)
    requires i <= |s|
    requires forall q :: i <= q < |s| ==> s[q] != '$'
    ensures DepolluteFrom(s, i, depth) == s[i..]
    decreases |s| - i
  {
    if i < |s| {
      assert !MarkerFormAt(s, i, NamedPrefix) && !MarkerFormAt(s, i, RefPrefix) by {
        if i + 7 <= |s| {
          assert s[i..i + 7][3] == s[i + 3];
        }
      }
      var w := if s[i] == '\\' && i + 1 < |s| then 2 else 1;
      var m := s[i..i + w];
      var depth' := if IsChar(m, '[') then depth + 1 else if IsChar(m, ']') && depth > 0 then depth - 1 else depth;
      DepolluteKeepsPlainText(s, i + w, depth');
      assert s[i..] == m + s[i + w..];
    }
  }

  lemma {:induction false} NoDollarUnchanged(s: seq<char>)
    requires forall q :: 0 <= q < |s| ==> s[q] != '$'
    ensures Depollute(s) == s
  {
    DepolluteKeepsPlainText(s, 0, 0);
    assert s[0..] == s;
  }

  /** A run of digits that the text spells out and that is followed by a non-digit is
      exactly the greedy digit run. */
  lemma {:induction false} DigitRunExact(s: seq<char>, j: nat, ds: seq<char>)
    requires j + |ds| < |s| && s[j..j + |ds|] == ds
    requires forall q :: 0 <= q < |ds| ==> IsDigit(ds[q])
    requires !IsDigit(s[j + |ds|])
    ensures DigitRun(s, j) == |ds|
    decreases |ds|
  {
    if ds != [] {
      assert s[j] == ds[0];
      assert s[j + 1..j + 1 + |ds[1..]|] == ds[1..];
      DigitRunExact(s, j + 1, ds[1..]);
    }
  }

  /** Where a text `u` is spelled out in `s` from `i` on, its pieces are too. */
  lemma {:induction false} SliceWithin(s: seq<char>, i: nat, u: seq<char>, j: nat, k: nat, a: nat, b: nat)
    requires i + |u| <= |s| && s[i..i + |u|] == u
    requires j <= k <= |u| && a == i + j && b == i + k
    ensures s[a..b] == u[j..k]
  {
    forall q | 0 <= q < k - j
      ensures s[a..b][q] == u[j..k][q]
    {
      assert s[a + q] == s[i..i + |u|][j + q];
    }
  }

  lemma {:induction false} IndexWithin(s: seq<char>, i: nat, u: seq<char>, j: nat, a: nat)
    requires i + |u| <= |s| && s[i..i + |u|] == u
    requires j < |u| && a == i + j
    ensures s[a] == u[j]
  {
    assert s[a] == s[i..i + |u|][j];
  }

  /** The pieces of a marker form's text: the seven-character prefix, the digits, `>`. */
  lemma {:induction false} MarkerTextParts(prefix: seq<char>, n: nat)
    requires |prefix| == 7 && prefix[3..] == "$AG$"
    ensures var u := prefix[..3] + Marker(n) + ">";
      && |u| == 8 + |Decimal(n)|
      && u[0..7] == prefix && u[7..7 + |Decimal(n)|] == Decimal(n) && u[7 + |Decimal(n)|] == '>'
  {
    var u := prefix[..3] + Marker(n) + ">";
    assert u == prefix + Decimal(n) + ">";
  }

  /** The marker form with prefix `prefix` for marker number `n`. */
  lemma {:induction false} MarkerFormOf(s: seq<char>, i: nat, prefix: seq<char>, n: nat)
    requires |prefix| == 7 && prefix[3..] == "$AG$"
    requires i + 8 + |Decimal(n)| <= |s|
    requires s[i..i + 8 + |Decimal(n)|] == prefix[..3] + Marker(n) + ">"
    ensures MarkerFormAt(s, i, prefix)
    ensures DigitRun(s, i + 7) == |Decimal(n)|
    ensures s[i + 7..i + 7 + |Decimal(n)|] == Decimal(n)
  {
    var ds := Decimal(n);
    var u := prefix[..3] + Marker(n) + ">";
    var e := i + 7 + |ds|;
    MarkerTextParts(prefix, n);
    SliceWithin(s, i, u, 0, 7, i, i + 7);
    SliceWithin(s, i, u, 7, 7 + |ds|, i + 7, e);
    IndexWithin(s, i, u, 7 + |ds|, e);
    DigitRunExact(s, i + 7, ds);
  }

  /** A named marker form outside every class is one step of depollution. */
  lemma {:induction false} DepolluteNamedStep(s: seq<char>, i: nat)
    requires i < |s| && MarkerFormAt(s, i, NamedPrefix)
    ensures i + 8 + DigitRun(s, i + 7) <= |s|
    ensures DepolluteFrom(s, i, 0) == "(" + DepolluteFrom(s, i + 8 + DigitRun(s, i + 7), 0)
  {
  }

  /** A backreference marker form outside every class is one step of depollution. */
  lemma {:induction false} DepolluteRefStep(s: seq<char>, i: nat)
    requires i < |s| && !MarkerFormAt(s, i, NamedPrefix) && MarkerFormAt(s, i, RefPrefix)
    ensures i + 8 + DigitRun(s, i + 7) <= |s|
    ensures DepolluteFrom(s, i, 0)
         == ['\\'] + s[i + 7..i + 7 + DigitRun(s, i + 7)] + DepolluteFrom(s, i + 8 + DigitRun(s, i + 7), 0)
  {
  }

  /** Outside every class, the named group of marker `n` becomes a plain `(`. */
  lemma {:induction false} DepolluteNamedGroup(s: seq<char>, i: nat, n: nat)
    requires i + 8 + |Decimal(n)| <= |s|
    requires s[i..i + 8 + |Decimal(n)|] == "(?<" + Marker(n) + ">"
    ensures DepolluteFrom(s, i, 0) == "(" + DepolluteFrom(s, i + 8 + |Decimal(n)|, 0)
  {
    assert NamedPrefix[..3] == "(?<";
    MarkerFormOf(s, i, NamedPrefix, n);
    DepolluteNamedStep(s, i);
  }

  /** A text that starts with `\` holds no named marker form there. */
  lemma {:induction false} NotNamedAt(s: seq<char>, i: nat)
    requires i < |s| && s[i] == '\\'
    ensures !MarkerFormAt(s, i, NamedPrefix)
  {
    if i + 7 <= |s| {
      assert s[i..i + 7][0] == s[i];
    }
  }

  /** Outside every class, the backreference to marker `n` becomes `\` followed by the
      decimal digits of `n`, which read back as `n`. */
  lemma {:induction false} DepolluteMarkerRef(s: seq<char>, i: nat, n: nat)
    requires i + 8 + |Decimal(n)| <= |s|
    requires s[i..i + 8 + |Decimal(n)|] == "\\k<" + Marker(n) + ">"
    ensures DepolluteFrom(s, i, 0) == ['\\'] + Decimal(n) + DepolluteFrom(s, i + 8 + |Decimal(n)|, 0)
    ensures DecimalValue(Decimal(n)) == n
  {
    assert RefPrefix[..3] == "\\k<";
    MarkerFormOf(s, i, RefPrefix, n);
    assert s[i] == s[i..i + 8 + |Decimal(n)|][0];
    NotNamedAt(s, i);
    DepolluteRefStep(s, i);
    DecimalRoundTrip(n);
  }
}
