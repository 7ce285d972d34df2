/** Text helpers the generator needs: decimal rendering of integers (the
    `${n}` interpolation of a JavaScript number that holds an integer),
    `Array.prototype.join("\n")`, and substring containment for stating what
    a generated document holds. */
module Text {

  function DigitChar(d: nat): (c: char)
    requires d < 10
    ensures '0' <= c <= '9'
  {
    "0123456789"[d]
  }

  function DigitValue(c: char): nat
  {
    if '0' <= c <= '9' then (c as int - '0' as int) as nat else 0
  }

  predicate IsDigits(s: string)
  {
    forall i :: 0 <= i < |s| ==> '0' <= s[i] <= '9'
  }

  /** Decimal digits of a natural number, most significant first, no leading zeros. */
  function NatToString(n: nat): (s: string)
    ensures |s| > 0 && IsDigits(s)
    ensures |s| > 1 ==> s[0] != '0'
    decreases n
  {
    if n < 10 then [DigitChar(n)] else NatToString(n / 10) + [DigitChar(n % 10)]
  }

  /** Canonical decimal text of a natural number: digits, no leading zero. */
  predicate CanonicalNat(s: string)
  {
    |s| > 0 && IsDigits(s) && (|s| > 1 ==> s[0] != '0')
  }

  /** Canonical decimal text of an integer: a natural number's text, or `-`
      followed by the text of a positive one. */
  predicate CanonicalInt(s: string)
  {
    CanonicalNat(s) || (|s| > 1 && s[0] == '-' && CanonicalNat(s[1..]) && s[1..] != "0")
  }

  /** What `${n}` prints for a JavaScript number holding the integer n, for
      |n| < 10^21 (beyond that JavaScript switches to exponent form). */
  function IntToString(n: int): (s: string)
    ensures CanonicalInt(s)
    ensures n < 0 <==> s[0] == '-'
    ensures forall i :: 0 <= i < |s| ==> s[i] == '-' || '0' <= s[i] <= '9'
  {
    if n < 0 then "-" + NatToString(-n) else NatToString(n)
  }

  /** Reads a string of decimal digits back as a number: the inverse of
      NatToString. */
  function ParseNat(s: string): nat
    decreases |s|
  {
    if s == [] then 0 else ParseNat(s[..|s| - 1]) * 10 + DigitValue(s[|s| - 1])
  }

  function ParseInt(s: string): int
  {
    if |s| > 0 && s[0] == '-' then -(ParseNat(s[1..]) as int) else ParseNat(s)
  }

  lemma {:induction false} NatRoundTrip(n: nat)
    ensures ParseNat(NatToString(n)) == n
    decreases n
  {
    if n >= 10 {
      var s := NatToString(n);
      NatRoundTrip(n / 10);
      assert s[..|s| - 1] == NatToString(n / 10);
    }
  }

  /** Decimal rendering loses nothing: the text reads back as the same integer. */
  lemma IntRoundTrip(n: int)
    ensures ParseInt(IntToString(n)) == n
  {
    if n < 0 {
      NegativeRoundTrip(-n);
      assert IntToString(n) == "-" + NatToString(-n);
    } else {
      NonNegativeRoundTrip(n);
      assert IntToString(n) == NatToString(n);
    }
  }

  lemma NonNegativeRoundTrip(m: nat)
    ensures ParseInt(NatToString(m)) == m
  {
    NatRoundTrip(m);
    assert '0' <= NatToString(m)[0] <= '9';
  }

  lemma NegativeRoundTrip(m: nat)
    ensures ParseInt("-" + NatToString(m)) == -(m as int)
  {
    var d := NatToString(m);
    NatRoundTrip(m);
    assert ("-" + d)[1..] == d;
  }

  /** Every canonical decimal text is the printing of the number it reads
      as: printing produces exactly the canonical texts. */
  lemma CanonicalIsPrinted(s: string)
    requires CanonicalInt(s)
    ensures IntToString(ParseInt(s)) == s
  {
    if CanonicalNat(s) {
      CanonicalNatIsPrinted(s);
    } else {
      var d := s[1..];
      CanonicalNatIsPrinted(d);
      assert ParseInt(s) == -(ParseNat(d) as int);
      assert ParseNat(d) != 0;
      assert s == "-" + d;
    }
  }

  lemma {:induction false} CanonicalNatIsPrinted(s: string)
    requires CanonicalNat(s)
    ensures NatToString(ParseNat(s)) == s
    ensures |s| > 1 ==> ParseNat(s) >= 10
    ensures s != "0" ==> ParseNat(s) > 0
    decreases |s|
  {
    var c := s[|s| - 1];
    var d := DigitValue(c);
    DigitCharValue(c);
    if |s| > 1 {
      var init := s[..|s| - 1];
      assert init[0] == s[0];
      assert CanonicalNat(init);
      CanonicalNatIsPrinted(init);
      assert init != "0" by { if |init| == 1 { assert init[0] != '0'; } }
      var n := ParseNat(s);
      assert n == ParseNat(init) * 10 + d;
      assert n / 10 == ParseNat(init) && n % 10 == d;
      assert s == init + [c];
    } else {
      assert s == [c];
    }
  }

  lemma DigitCharValue(c: char)
    requires '0' <= c <= '9'
    ensures DigitValue(c) < 10 && DigitChar(DigitValue(c)) == c
  {
  }

  /** Two integers with the same rendering are equal. */
  lemma IntToStringInjective(m: int, n: int)
    requires IntToString(m) == IntToString(n)
    ensures m == n
  {
    IntRoundTrip(m);
    IntRoundTrip(n);
  }

  /** `xs.map(f)` for a function into strings. */
  function MapText<T>(f: T -> string, xs: seq<T>): (r: seq<string>)
    ensures |r| == |xs|
    ensures forall k :: 0 <= k < |xs| ==> r[k] == f(xs[k])
  {
    seq(|xs|, k requires 0 <= k < |xs| => f(xs[k]))
  }

  lemma MapTextAppend<T>(f: T -> string, xs: seq<T>, x: T)
    ensures MapText(f, xs + [x]) == MapText(f, xs) + [f(x)]
  {
    assert forall k :: 0 <= k < |xs| ==> (xs + [x])[k] == xs[k];
  }

  /** `parts.join("\n")`. */
  function Join(parts: seq<string>): (s: string)
    decreases |parts|
  {
    if |parts| == 0 then ""
    else if |parts| == 1 then parts[0]
    else parts[0] + "\n" + Join(parts[1..])
  }

  /** Joining two non-empty lists puts exactly one separator between them. */
  lemma {:induction false} JoinAppend(a: seq<string>, b: seq<string>)
    requires |a| > 0 && |b| > 0
    ensures Join(a + b) == Join(a) + "\n" + Join(b)
    decreases |a|
  {
    if |a| == 1 {
      assert (a + b)[1..] == b;
    } else {
      assert (a + b)[1..] == a[1..] + b;
      JoinAppend(a[1..], b);
    }
  }

  /** Where the k-th part starts inside `Join(parts)`. */
  function PartOffset(parts: seq<string>, k: nat): nat
    requires k < |parts|
  {
    |Join(parts[..k])| + (if k > 0 then 1 else 0)
  }

  /** The parts from k on, joined, start with part k. */
  lemma JoinStartsWithFirst(parts: seq<string>)
    requires |parts| > 0
    ensures |parts[0]| <= |Join(parts)| && Join(parts)[..|parts[0]|] == parts[0]
  {
    if |parts| > 1 {
      assert Join(parts) == parts[0] + ("\n" + Join(parts[1..]));
    }
  }

  /** Part k appears verbatim at its offset. */
  lemma PartAtOffset(parts: seq<string>, k: nat)
    requires k < |parts|
    ensures PartOffset(parts, k) + |parts[k]| <= |Join(parts)|
    ensures Join(parts)[PartOffset(parts, k)..PartOffset(parts, k) + |parts[k]|] == parts[k]
  {
    var rest := Join(parts[k..]);
    JoinStartsWithFirst(parts[k..]);
    assert parts[k..][0] == parts[k];
    if k > 0 {
      var a := Join(parts[..k]) + "\n";
      assert parts == parts[..k] + parts[k..];
      JoinAppend(parts[..k], parts[k..]);
      assert Join(parts) == a + rest;
      assert (a + rest)[|a|..|a| + |parts[k]|] == rest[..|parts[k]|];
    } else {
      assert parts[k..] == parts;
    }
  }

  /** Part k appears verbatim at its offset inside the joined parts, wherever
      that joined text is embedded. */
  lemma PartPlaced(head: string, parts: seq<string>, tail: string, k: nat)
    requires k < |parts|
    ensures OccursAt(head + Join(parts) + tail, parts[k], |head| + PartOffset(parts, k))
  {
    PartAtOffset(parts, k);
    OccursWithin(head, Join(parts), tail, parts[k], PartOffset(parts, k));
  }

  lemma PartContained(head: string, parts: seq<string>, tail: string, k: nat)
    requires k < |parts|
    ensures Contains(head + Join(parts) + tail, parts[k])
  {
    PartPlaced(head, parts, tail, k);
    OccursContains(head + Join(parts) + tail, parts[k], |head| + PartOffset(parts, k));
  }

  /** Parts appear in list order: part i ends strictly before part j starts. */
  lemma PartsInOrder(parts: seq<string>, i: nat, j: nat)
    requires i < j < |parts|
    ensures PartOffset(parts, i) + |parts[i]| < PartOffset(parts, j)
  {
    var pre := parts[..j];
    assert pre[..i] == parts[..i];
    assert pre[i] == parts[i];
    PartAtOffset(pre, i);
  }

  predicate IsPrefix(t: string, s: string)
  {
    |t| <= |s| && s[..|t|] == t
  }

  predicate IsSuffix(t: string, s: string)
  {
    |t| <= |s| && s[|s| - |t|..] == t
  }

  /** t occurs in s starting at position p. */
  predicate OccursAt(s: string, t: string, p: int)
  {
    0 <= p && p + |t| <= |s| && s[p..p + |t|] == t
  }

  predicate Contains(s: string, t: string)
  {
    exists p :: 0 <= p <= |s| && OccursAt(s, t, p)
  }

  lemma OccursContains(s: string, t: string, p: int)
    requires OccursAt(s, t, p)
    ensures Contains(s, t)
  {
    assert 0 <= p <= |s|;
  }

  lemma ContainsMiddle(a: string, t: string, b: string)
    ensures OccursAt(a + t + b, t, |a|)
    ensures Contains(a + t + b, t)
  {
    assert (a + t + b)[|a|..|a| + |t|] == t;
    assert OccursAt(a + t + b, t, |a|);
  }

  /** Containment survives putting text on either side. */
  lemma ContainsWithin(a: string, s: string, b: string, t: string)
    requires Contains(s, t)
    ensures Contains(a + s + b, t)
  {
    var p :| 0 <= p <= |s| && OccursAt(s, t, p);
    assert (a + s + b)[|a| + p..|a| + p + |t|] == s[p..p + |t|];
    assert OccursAt(a + s + b, t, |a| + p);
  }

  lemma ContainsTransitive(s: string, t: string, u: string)
    requires Contains(s, t) && Contains(t, u)
    ensures Contains(s, u)
  {
    var p :| 0 <= p <= |s| && OccursAt(s, t, p);
    var q :| 0 <= q <= |t| && OccursAt(t, u, q);
    forall i | 0 <= i < |u| ensures s[p + q + i] == u[i] {
      assert t[q + i] == u[i];
      assert s[p + (q + i)] == t[q + i];
    }
    assert s[p + q..p + q + |u|] == u;
    assert OccursAt(s, u, p + q);
  }

  /** Text between a fixed prefix and a fixed suffix is determined by the whole. */
  lemma MiddleDetermined(a: string, x: string, y: string, b: string)
    requires a + x + b == a + y + b
    ensures x == y
  {
    assert |x| == |y|;
    assert (a + x + b)[|a|..|a| + |x|] == x;
    assert (a + y + b)[|a|..|a| + |y|] == y;
  }

  lemma PrefixContains(t: string, s: string)
    requires IsPrefix(t, s)
    ensures Contains(s, t)
  {
    assert OccursAt(s, t, 0);
  }

  lemma SuffixContains(t: string, s: string)
    requires IsSuffix(t, s)
    ensures Contains(s, t)
  {
    assert s == s[..|s| - |t|] + t;
    ContainsEnd(s[..|s| - |t|], t);
  }

  /** Text that lacks some character cannot contain a text starting with it. */
  lemma AbsentLeadNotContained(s: string, t: string)
    requires |t| > 0 && t[0] !in s
    ensures !Contains(s, t)
  {
    forall p | 0 <= p <= |s| ensures !OccursAt(s, t, p) {
      if p + |t| <= |s| {
        assert s[p..p + |t|][0] == s[p];
      }
    }
  }

  /** An occurrence survives putting text on either side, shifted by the left text. */
  lemma OccursWithin(a: string, s: string, b: string, t: string, p: int)
    requires OccursAt(s, t, p)
    ensures OccursAt(a + s + b, t, |a| + p)
  {
    assert (a + s + b)[|a| + p..|a| + p + |t|] == s[p..p + |t|];
  }

  lemma ContainsEnd(a: string, t: string)
    ensures Contains(a + t, t)
  {
    assert (a + t)[|a|..|a| + |t|] == t;
    assert OccursAt(a + t, t, |a|);
  }

  lemma ContainsExtend(s: string, t: string, b: string)
    requires Contains(s, t)
    ensures Contains(s + b, t)
  {
    var p :| 0 <= p <= |s| && OccursAt(s, t, p);
    assert (s + b)[p..p + |t|] == s[p..p + |t|];
    assert OccursAt(s + b, t, p);
  }

  lemma PrefixSuffix3(a: string, b: string, c: string)
    ensures IsPrefix(a, a + b + c) && IsSuffix(c, a + b + c)
  {
    assert (a + b + c)[..|a|] == a;
    assert (a + b + c)[|a + b|..] == c;
  }

  /** The text up to the first space (the whole text when there is none). */
  function FirstWord(s: string): (w: string)
    ensures IsPrefix(w, s) && ' ' !in w
    decreases |s|
  {
    if s == [] || s[0] == ' ' then [] else [s[0]] + FirstWord(s[1..])
  }

  lemma {:induction false} FirstWordOf(w: string, rest: string)
    requires ' ' !in w
    ensures FirstWord(w + " " + rest) == w
    decreases |w|
  {
    if w != [] {
      assert (w + " " + rest)[1..] == w[1..] + " " + rest;
      FirstWordOf(w[1..], rest);
    }
  }
}
