/**
  Text clean-up applied to the cells of one trade-history row before they
  become an order: whitespace stripping, removal of a literal substring
  (Python's `str.replace(pat, '')`), the digit-and-dot filter used on price
  and quantity cells, the clean-up of the realised-profit cell, and the
  removal of the "Perpetual" marker from symbol labels.
*/
module Text {

  /** The characters Python's `str.strip()` removes, within Latin-1. */
  predicate IsSpace(c: char) {
    c == ' ' || c == '\t' || c == '\n' || c == '\r' || c == '\U{000B}' || c == '\U{000C}' ||
    ('\U{001C}' <= c <= '\U{001F}') || c == '\U{0085}' || c == '\U{00A0}'
  }

  predicate AllSpace(s: string) {
    forall i :: 0 <= i < |s| ==> IsSpace(s[i])
  }

  predicate IsDigit(c: char) {
    '0' <= c <= '9'
  }

  /** The number of whitespace characters `s` starts with. */
  function LeadingSpace(s: string): (k: nat)
    ensures k <= |s|
    ensures forall i :: 0 <= i < k ==> IsSpace(s[i])
    ensures k == |s| || !IsSpace(s[k])
  {
    if s != [] && IsSpace(s[0]) then 1 + LeadingSpace(s[1..]) else 0
  }

  /** Drops leading whitespace. */
  function StripLeft(s: string): (r: string)
    ensures |r| <= |s| && r == s[|s| - |r|..]
    ensures AllSpace(s[..|s| - |r|])
    ensures r == [] || !IsSpace(r[0])
  {
    var k := LeadingSpace(s);
    assert forall i :: 0 <= i < k ==> s[..k][i] == s[i];
    s[k..]
  }

  /** Drops trailing whitespace. */
  function StripRight(s: string): (r: string)
    ensures |r| <= |s| && r == s[..|r|]
    ensures AllSpace(s[|r|..])
    ensures r == [] || !IsSpace(r[|r| - 1])
  {
    if s != [] && IsSpace(s[|s| - 1]) then
      var r := StripRight(s[..|s| - 1]);
      assert s[|r|..] == s[..|s| - 1][|r|..] + [s[|s| - 1]];
      assert s[..|r|] == s[..|s| - 1][..|r|];
      r
    else
      assert s[|s|..] == [];
      s
  }

  /**
    Python's `str.strip()`: the result is the slice of `s` left once the
    whitespace on both ends is gone, and neither of its ends is whitespace.
  */
  function Strip(s: string): (r: string)
    ensures exists i :: StrippedAt(s, i, r)
    ensures r == [] || (!IsSpace(r[0]) && !IsSpace(r[|r| - 1]))
  {
    var left := StripLeft(s);
    var r := StripRight(left);
    StripWitness(s, left, r);
    r
  }

  lemma StripWitness(s: string, left: string, r: string)
    requires |left| <= |s| && left == s[|s| - |left|..] && AllSpace(s[..|s| - |left|])
    requires |r| <= |left| && r == left[..|r|] && AllSpace(left[|r|..])
    requires left == [] || !IsSpace(left[0])
    requires r == [] || !IsSpace(r[|r| - 1])
    ensures StrippedAt(s, |s| - |left|, r)
    ensures r == [] || (!IsSpace(r[0]) && !IsSpace(r[|r| - 1]))
  {
    if r != [] {
      assert r[0] == left[0];
    }
    var i := |s| - |left|;
    assert s[i..i + |r|] == r;
    assert s[i + |r|..] == left[|r|..];
  }

  /** `r` is `s` without the whitespace `s[..i]` before it and the whitespace after it. */
  predicate StrippedAt(s: string, i: int, r: string) {
    0 <= i <= |s| - |r| && s[i..i + |r|] == r && AllSpace(s[..i]) && AllSpace(s[i + |r|..])
  }

  /** Stripping a stripped text changes nothing. */
  lemma StripIdempotent(s: string)
    ensures Strip(Strip(s)) == Strip(s)
  {
    var r := Strip(s);
    if r != [] {
      assert StripLeft(r) == r;
      assert StripRight(r) == r;
    }
  }

  /** Stripping only ever removes whitespace: every other character keeps its count. */
  lemma StripKeepsNonSpace(s: string, c: char)
    requires !IsSpace(c)
    ensures multiset(Strip(s))[c] == multiset(s)[c]
  {
    var left := StripLeft(s);
    var r := StripRight(left);
    DropSpacePrefix(s, |s| - |left|, c);
    DropSpaceSuffix(left, |r|, c);
  }

  lemma DropSpacePrefix(s: string, k: nat, c: char)
    requires k <= |s| && AllSpace(s[..k]) && !IsSpace(c)
    ensures multiset(s[k..])[c] == multiset(s)[c]
  {
    assert s == s[..k] + s[k..];
    SpaceFree(s[..k], c);
  }

  lemma DropSpaceSuffix(s: string, k: nat, c: char)
    requires k <= |s| && AllSpace(s[k..]) && !IsSpace(c)
    ensures multiset(s[..k])[c] == multiset(s)[c]
  {
    assert s == s[..k] + s[k..];
    SpaceFree(s[k..], c);
  }

  lemma SpaceFree(t: string, c: char)
    requires AllSpace(t) && !IsSpace(c)
    ensures c !in t
  {
  }

  /** Python's `s.replace(pat, '')`: occurrences of `pat` are removed left to right, without overlap. */
  function RemoveAll(s: string, pat: string): (r: string)
    requires pat != []
    ensures |r| <= |s|
    decreases |s|
  {
    if |s| < |pat| then s
    else if s[..|pat|] == pat then RemoveAll(s[|pat|..], pat)
    else [s[0]] + RemoveAll(s[1..], pat)
  }

  /** A character that does not occur in `pat` is never removed. */
  lemma {:induction false} RemoveAllKeeps(s: string, pat: string, c: char)
    requires pat != [] && c !in pat
    ensures multiset(RemoveAll(s, pat))[c] == multiset(s)[c]
    decreases |s|
  {
    if |s| < |pat| {
    } else if s[..|pat|] == pat {
      var rest := s[|pat|..];
      RemoveAllKeeps(rest, pat, c);
      assert s == pat + rest;
      assert multiset(s) == multiset(pat) + multiset(rest);
      assert multiset(pat)[c] == 0;
    } else {
      var rest := s[1..];
      RemoveAllKeeps(rest, pat, c);
      assert s == [s[0]] + rest;
      assert RemoveAll(s, pat) == [s[0]] + RemoveAll(rest, pat);
      assert multiset(s) == multiset([s[0]]) + multiset(rest);
      assert multiset(RemoveAll(s, pat)) == multiset([s[0]]) + multiset(RemoveAll(rest, pat));
    }
  }

  /** Removing a one-character pattern removes every copy of that character and keeps the rest. */
  lemma {:induction false} RemoveCharDrops(s: string, c: char)
    ensures c !in RemoveAll(s, [c])
    ensures forall d :: d != c ==> multiset(RemoveAll(s, [c]))[d] == multiset(s)[d]
    decreases |s|
  {
    if s != [] {
      RemoveCharDrops(s[1..], c);
      assert s == [s[0]] + s[1..];
    }
  }

  /** Python's `re.sub(r'[^\d.]', '', s)`: keeps the ASCII digits and dots, in order. */
  function KeepDigitsAndDots(s: string): (r: string)
    ensures forall i :: 0 <= i < |r| ==> IsDigit(r[i]) || r[i] == '.'
    ensures forall c :: IsDigit(c) || c == '.' ==> multiset(r)[c] == multiset(s)[c]
  {
    if s == [] then []
    else
      assert s == [s[0]] + s[1..];
      if IsDigit(s[0]) || s[0] == '.' then [s[0]] + KeepDigitsAndDots(s[1..])
      else KeepDigitsAndDots(s[1..])
  }

  /**
    The filter works piece by piece: filtering a concatenation is filtering
    each part and concatenating, so the kept characters stay in input order.
  */
  lemma {:induction false} KeepDigitsAndDotsConcat(a: string, b: string)
    ensures KeepDigitsAndDots(a + b) == KeepDigitsAndDots(a) + KeepDigitsAndDots(b)
  {
    if a == [] {
      assert a + b == b;
    } else {
      assert (a + b)[0] == a[0] && (a + b)[1..] == a[1..] + b;
      KeepDigitsAndDotsConcat(a[1..], b);
    }
  }

  /** Clean-up of a price or quantity cell: drop `,`, then everything that is not a digit or a dot. */
  function CleanNumeric(s: string): string {
    KeepDigitsAndDots(RemoveAll(s, ","))
  }

  /** The comma removal before the digit filter is redundant: the filter drops commas itself. */
  lemma {:induction false} CleanNumericIsDigitFilter(s: string)
    ensures CleanNumeric(s) == KeepDigitsAndDots(s)
    decreases |s|
  {
    if s != [] {
      CleanNumericIsDigitFilter(s[1..]);
      if s[..1] == "," {
        assert s[0] == ',';
      }
    }
  }

  /**
    Clean-up of a realised-profit cell: remove `USDT`, strip, then remove `,`.
    Unlike the numeric clean-up it keeps a leading minus sign.
  */
  function CleanProfit(s: string): string {
    RemoveAll(Strip(RemoveAll(s, "USDT")), ",")
  }

  /**
    The profit clean-up removes no character other than the letters of `USDT`,
    whitespace and commas: in particular the minus sign, the digits and the
    dot all keep their counts, and no comma is left.
  */
  lemma CleanProfitKeeps(s: string, c: char)
    requires c !in "USDT," && !IsSpace(c)
    ensures multiset(CleanProfit(s))[c] == multiset(s)[c]
    ensures ',' !in CleanProfit(s)
  {
    var a := RemoveAll(s, "USDT");
    RemoveAllKeeps(s, "USDT", c);
    StripKeepsNonSpace(a, c);
    RemoveCharDrops(Strip(a), ',');
  }

  predicate OccursAt(s: string, pat: string, i: int) {
    0 <= i <= |s| - |pat| && s[i..i + |pat|] == pat
  }

  /** `pat` occurs nowhere in `s`. */
  predicate NoOccurrence(s: string, pat: string) {
    forall i :: 0 <= i <= |s| ==> !OccursAt(s, pat, i)
  }

  /** Only whole occurrences are removed: a text without any occurrence of `pat` is left as it is. */
  lemma {:induction false} RemoveAllIdentity(s: string, pat: string)
    requires pat != [] && NoOccurrence(s, pat)
    ensures RemoveAll(s, pat) == s
    decreases |s|
  {
    if |s| >= |pat| {
      assert !OccursAt(s, pat, 0);
      forall i | 0 <= i <= |s| - 1 ensures !OccursAt(s[1..], pat, i) {
        assert !OccursAt(s, pat, i + 1);
        if i <= |s| - 1 - |pat| {
          assert s[1..][i..i + |pat|] == s[i + 1..i + 1 + |pat|];
        }
      }
      RemoveAllIdentity(s[1..], pat);
    }
  }

  /**
    Removing a single character works piece by piece: the removal of a
    concatenation is the concatenation of the removals, so the characters
    that survive keep their order.
  */
  lemma {:induction false} RemoveCharConcat(a: string, b: string, c: char)
    ensures RemoveAll(a + b, [c]) == RemoveAll(a, [c]) + RemoveAll(b, [c])
  {
    if a == [] {
      assert a + b == b;
    } else {
      assert (a + b)[..1] == a[..1] && (a + b)[1..] == a[1..] + b;
      RemoveCharConcat(a[1..], b, c);
    }
  }

  /** A prefix without the first character of `pat` passes through the removal untouched. */
  lemma {:induction false} RemoveAllKeepsPrefix(t: string, u: string, pat: string)
    requires pat != [] && pat[0] !in t
    ensures RemoveAll(t + u, pat) == t + RemoveAll(u, pat)
  {
    if t == [] {
      assert t + u == u;
    } else if |t + u| >= |pat| {
      var s := t + u;
      assert s[..|pat|][0] == t[0] != pat[0];
      assert s[1..] == t[1..] + u;
      RemoveAllKeepsPrefix(t[1..], u, pat);
      assert RemoveAll(s, pat) == [t[0]] + RemoveAll(s[1..], pat);
      assert [t[0]] + (t[1..] + RemoveAll(u, pat)) == t + RemoveAll(u, pat);
    } else {
      assert RemoveAll(u, pat) == u;
    }
  }

  /**
    The profit clean-up of an amount followed by " USDT" gives the amount
    back, whatever it holds besides a `U` or a comma: a minus sign, digits
    and a dot survive in place.
  */
  lemma CleanProfitOfAmount(t: string)
    requires t != [] && !IsSpace(t[0]) && !IsSpace(t[|t| - 1])
    requires 'U' !in t && ',' !in t
    ensures CleanProfit(t + " USDT") == t
  {
    var spaced := t + " ";
    RemoveUsdtSuffix(t);
    StripOfSpaced(t);
    RemoveAbsentChar(t, ',');
  }

  /** Removing `USDT` from an amount without a `U` followed by " USDT" leaves the amount and the space. */
  lemma RemoveUsdtSuffix(t: string)
    requires 'U' !in t
    ensures RemoveAll(t + " USDT", "USDT") == t + " "
  {
    var spaced := t + " ";
    assert t + " USDT" == spaced + "USDT";
    RemoveAllKeepsPrefix(spaced, "USDT", "USDT");
    assert RemoveAll("USDT", "USDT") == [];
    assert spaced + [] == spaced;
  }

  /** Stripping a text that ends in one space and has no other space at its ends gives the text without it. */
  lemma StripOfSpaced(t: string)
    requires t != [] && !IsSpace(t[0]) && !IsSpace(t[|t| - 1])
    ensures Strip(t + " ") == t
  {
    var spaced := t + " ";
    assert spaced[0] == t[0];
    assert StripLeft(spaced) == spaced;
    assert spaced[..|spaced| - 1] == t;
    assert StripRight(spaced) == t;
  }

  /** Removing a character the text does not hold changes nothing. */
  lemma RemoveAbsentChar(t: string, c: char)
    requires c !in t
    ensures RemoveAll(t, [c]) == t
  {
    forall i | 0 <= i <= |t| ensures !OccursAt(t, [c], i) {
      if i < |t| {
        assert t[i..i + 1] == [t[i]];
      }
    }
    RemoveAllIdentity(t, [c]);
  }

  const Perpetual: string := "Perpetual"
  const SpacedPerpetual: string := " Perpetual"

  /**
    Python's `re.sub(r" ?Perpetual", "", s)`: scanning left to right, each
    " Perpetual" (with its space) or bare "Perpetual" is removed; the regex
    tries the spaced form first at every position.
  */
  function RemovePerpetual(s: string): (r: string)
    ensures |r| <= |s|
    decreases |s|
  {
    if |s| >= 10 && s[..10] == SpacedPerpetual then RemovePerpetual(s[10..])
    else if |s| >= 9 && s[..9] == Perpetual then RemovePerpetual(s[9..])
    else if s == [] then []
    else [s[0]] + RemovePerpetual(s[1..])
  }

  predicate PerpetualAt(s: string, i: int) {
    0 <= i <= |s| - 9 && s[i..i + 9] == Perpetual
  }

  /** `s` has no occurrence of "Perpetual" at any position. */
  predicate NoPerpetual(s: string) {
    forall i :: 0 <= i < |s| ==> !PerpetualAt(s, i)
  }

  /** The symbol clean-up of the row reader: remove the marker, then strip. */
  function NormaliseSymbol(s: string): string {
    Strip(RemovePerpetual(s))
  }

  lemma NoPerpetualTail(s: string)
    requires s != [] && NoPerpetual(s)
    ensures NoPerpetual(s[1..])
  {
    forall i | 0 <= i < |s| - 1 ensures !PerpetualAt(s[1..], i) {
      assert !PerpetualAt(s, i + 1);
      if i <= |s| - 10 {
        assert s[1..][i..i + 9] == s[i + 1..i + 1 + 9];
      }
    }
  }

  /** A label without the marker passes through the marker removal unchanged. */
  lemma {:induction false} RemovePerpetualIdentity(s: string)
    requires NoPerpetual(s)
    ensures RemovePerpetual(s) == s
    decreases |s|
  {
    if s != [] {
      NoMarkerAtHead(s);
      NoPerpetualTail(s);
      RemovePerpetualIdentity(s[1..]);
    }
  }

  /** Neither form of the marker starts a text that has no marker. */
  lemma NoMarkerAtHead(s: string)
    requires NoPerpetual(s)
    ensures !(|s| >= 10 && s[..10] == SpacedPerpetual) && !(|s| >= 9 && s[..9] == Perpetual)
  {
    if |s| >= 10 && s[..10] == SpacedPerpetual {
      assert s[1..10] == Perpetual;
      assert PerpetualAt(s, 1);
      assert false;
    }
    if |s| >= 9 && s[..9] == Perpetual {
      assert PerpetualAt(s, 0);
      assert false;
    }
  }

  /** Where no marker starts, the first character is kept and the removal goes on after it. */
  lemma RemovePerpetualKeepsHead(s: string)
    requires s != []
    requires !(|s| >= 10 && s[..10] == SpacedPerpetual) && !(|s| >= 9 && s[..9] == Perpetual)
    ensures RemovePerpetual(s) == [s[0]] + RemovePerpetual(s[1..])
  {
  }

  /** No character of "Perpetual" is a space. */
  lemma PerpetualHasNoSpace(k: int)
    requires 0 <= k < 9
    ensures Perpetual[k] != ' ' && SpacedPerpetual[k + 1] != ' '
  {
  }

  /**
    Neither form of the marker can start at the first character of
    `base + " Perpetual"` when `base` is non-empty and has no marker of its own.
  */
  lemma NoMarkerAtStart(base: string)
    requires base != [] && NoPerpetual(base)
    ensures var s := base + SpacedPerpetual; !(|s| >= 10 && s[..10] == SpacedPerpetual) && !(|s| >= 9 && s[..9] == Perpetual)
  {
    var s := base + SpacedPerpetual;
    var k := |base|;
    assert s[k] == ' ';
    if k >= 10 {
      assert !PerpetualAt(base, 1);
      assert s[1..10] == base[1..10];
    } else {
      PerpetualHasNoSpace(k - 1);
      assert s[..10][k] != SpacedPerpetual[k];
    }
    if k >= 9 {
      assert !PerpetualAt(base, 0);
      assert s[..9] == base[..9];
    } else {
      PerpetualHasNoSpace(k);
      assert s[..9][k] != Perpetual[k];
    }
  }

  /**
    A market label written as a base symbol followed by " Perpetual" is
    normalised to the base symbol itself, stripped, whenever the base symbol
    has no "Perpetual" of its own: no match can straddle the boundary,
    because the only space of the pattern is its first character.
  */
  lemma {:induction false} RemovePerpetualSuffix(base: string)
    requires NoPerpetual(base)
    ensures RemovePerpetual(base + SpacedPerpetual) == base
    decreases |base|
  {
    var s := base + SpacedPerpetual;
    if base == [] {
      assert s == SpacedPerpetual;
      assert RemovePerpetual(s) == RemovePerpetual(s[10..]);
      assert s[10..] == [];
    } else {
      NoMarkerAtStart(base);
      RemovePerpetualKeepsHead(s);
      NoPerpetualTail(base);
      RemovePerpetualSuffix(base[1..]);
      assert s[1..] == base[1..] + SpacedPerpetual;
      assert base == [base[0]] + base[1..];
    }
  }

  /** The only capital `P` of "Perpetual" is its first letter. */
  lemma PerpetualHasOneCapital(k: int)
    requires 1 <= k < 9
    ensures Perpetual[k] != 'P'
  {
  }

  /**
    Neither form of the marker can start at the first character of
    `base + "Perpetual"` when `base` is non-empty, has no marker of its own
    and does not end in a space.
  */
  lemma NoMarkerAtStartBare(base: string)
    requires base != [] && NoPerpetual(base) && base[|base| - 1] != ' '
    ensures var s := base + Perpetual; !(|s| >= 10 && s[..10] == SpacedPerpetual) && !(|s| >= 9 && s[..9] == Perpetual)
  {
    var s := base + Perpetual;
    var k := |base|;
    assert s[k] == 'P';
    if k >= 10 {
      assert !PerpetualAt(base, 1);
      assert s[1..10] == base[1..10];
    } else if k == 1 {
      assert s[..10][0] == base[0] != ' ';
    } else {
      PerpetualHasOneCapital(k - 1);
      assert s[..10][k] != SpacedPerpetual[k];
    }
    if k >= 9 {
      assert !PerpetualAt(base, 0);
      assert s[..9] == base[..9];
    } else {
      PerpetualHasOneCapital(k);
      assert s[..9][k] != Perpetual[k];
    }
  }

  /**
    The optional space of the pattern: a label written as a base symbol
    directly followed by "Perpetual" loses the marker too, whenever the base
    symbol has no marker of its own and does not end in a space (a base that
    does is the spaced form of `RemovePerpetualSuffix`).
  */
  lemma {:induction false} RemovePerpetualBareSuffix(base: string)
    requires NoPerpetual(base) && (base == [] || base[|base| - 1] != ' ')
    ensures RemovePerpetual(base + Perpetual) == base
    decreases |base|
  {
    var s := base + Perpetual;
    if base == [] {
      assert s == Perpetual;
      assert RemovePerpetual(s) == RemovePerpetual(s[9..]);
      assert s[9..] == [];
    } else {
      var t := base[1..];
      NoMarkerAtStartBare(base);
      RemovePerpetualKeepsHead(s);
      NoPerpetualTail(base);
      assert t == [] || t[|t| - 1] == base[|base| - 1];
      RemovePerpetualBareSuffix(t);
      assert s[1..] == t + Perpetual;
      assert s[0] == base[0];
      assert base == [base[0]] + t;
    }
  }

  /** Hence the symbol clean-up turns "BASE Perpetual" into the stripped base symbol. */
  lemma NormaliseMarkedSymbol(base: string)
    requires NoPerpetual(base)
    ensures NormaliseSymbol(base + SpacedPerpetual) == Strip(base)
  {
    RemovePerpetualSuffix(base);
  }
}
