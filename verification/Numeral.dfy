/** Positional numerals, most significant digit first: the decimal text of PAX
    lengths and of ANSI insert-line counts, the octal and base-256 fields of a
    tar header. */
module Numeral {

  type Digits = seq<nat>

  predicate InBase(base: nat, s: Digits) {
    forall i | 0 <= i < |s| :: s[i] < base
  }

  /** What Python's int(text, base) and int.from_bytes(raw, "big") compute. */
  function Value(base: nat, s: Digits): nat {
    if s == [] then 0 else Value(base, s[..|s| - 1]) * base + s[|s| - 1]
  }

  /** The shortest numeral of n: Python's str(n) for base ten. */
  function Print(base: nat, n: nat): (s: Digits)
    requires base >= 2
    ensures s != [] && InBase(base, s)
    ensures s[0] == 0 ==> s == [0]
    decreases n
  {
    if n < base then [n]
    else
      Shrinks(base, n);
      Print(base, n / base) + [n % base]
  }

  /** lstrip("0"). */
  function Strip(s: Digits): (r: Digits)
    ensures |r| <= |s| && r == s[|s| - |r|..]
    ensures r != [] ==> r[0] != 0
  {
    if s != [] && s[0] == 0 then Strip(s[1..]) else s
  }

  /** lstrip("0") or "0". */
  function Canonical(s: Digits): (r: Digits)
    ensures r != []
  {
    if Strip(s) == [] then [0] else Strip(s)
  }

  /** Python's str comparison a > b. */
  predicate LexGreater(a: Digits, b: Digits) {
    a != [] && (b == [] || a[0] > b[0] || (a[0] == b[0] && LexGreater(a[1..], b[1..])))
  }

  /** Longer, or equally long and later in dictionary order. */
  predicate Exceeds(a: Digits, b: Digits) {
    |a| > |b| || (|a| == |b| && LexGreater(a, b))
  }

  lemma Shrinks(base: nat, n: nat)
    requires base >= 2 && n >= base
    ensures 1 <= n / base < n
    ensures n / base * base + n % base == n
  {
    assert n == base * (n / base) + n % base;
  }

  lemma {:induction false} ValuePrint(base: nat, n: nat)
    requires base >= 2
    ensures Value(base, Print(base, n)) == n
    decreases n
  {
    if n < base {
      assert [n][..0] == [];
      assert Value(base, [n]) == 0 * base + n;
    } else {
      Shrinks(base, n);
      ValuePrint(base, n / base);
      assert Print(base, n)[..|Print(base, n)| - 1] == Print(base, n / base);
    }
  }

  /** Leading zeros do not change the value, so a field may be zero padded. */
  lemma {:induction false} ValueLeadingZero(base: nat, s: Digits)
    ensures Value(base, [0] + s) == Value(base, s)
  {
    if s == [] {
      assert ([0] + s)[..0] == [];
      assert Value(base, [0]) == Value(base, []) * base + 0;
    } else {
      ValueLeadingZero(base, s[..|s| - 1]);
      assert ([0] + s)[..|s|] == [0] + s[..|s| - 1];
    }
  }

  lemma {:induction false} ValueStrip(base: nat, s: Digits)
    ensures Value(base, Strip(s)) == Value(base, s)
  {
    hide Value;
    if s != [] && s[0] == 0 {
      ValueStrip(base, s[1..]);
      ValueLeadingZero(base, s[1..]);
      assert s == [0] + s[1..];
    }
  }

  /** A numeral without a leading zero is the one Print gives. */
  lemma {:induction false} PrintUnique(base: nat, s: Digits)
    requires base >= 2 && InBase(base, s) && s != []
    requires s[0] == 0 ==> s == [0]
    ensures Print(base, Value(base, s)) == s
  {
    var front, last := s[..|s| - 1], s[|s| - 1];
    if |s| == 1 {
      assert front == [] && s == [last];
      assert Value(base, s) == 0 * base + last;
    } else {
      assert front[0] == s[0];
      PrintUnique(base, front);
      PositiveValue(base, front);
      PrintSnoc(base, Value(base, front), last);
      assert s == front + [last];
    }
  }

  lemma PrintSnoc(base: nat, q: nat, r: nat)
    requires base >= 2 && q >= 1 && r < base
    ensures Print(base, q * base + r) == Print(base, q) + [r]
  {
    DivMod(base, q, r);
    assert q * base >= base;
  }

  lemma {:induction false} Multiples(base: nat, q: nat, p: nat)
    ensures q < p ==> base * q + base <= base * p
    decreases p
  {
    if q < p {
      Multiples(base, q, p - 1);
      assert base * p == base * (p - 1) + base;
    }
  }

  lemma DivMod(base: nat, q: nat, r: nat)
    requires r < base
    ensures (q * base + r) / base == q && (q * base + r) % base == r
  {
    var n := q * base + r;
    assert n == base * (n / base) + n % base;
    Multiples(base, n / base, q);
    Multiples(base, q, n / base);
  }

  lemma {:induction false} PositiveValue(base: nat, s: Digits)
    requires base >= 2 && s != [] && s[0] != 0
    ensures Value(base, s) >= 1
  {
    if |s| > 1 {
      PositiveValue(base, s[..|s| - 1]);
      assert Value(base, s[..|s| - 1]) * base >= base;
    } else {
      assert s[..0] == [];
      assert Value(base, s) == 0 * base + s[0];
    }
  }

  /** The text that survives the stripping is the text of the value. */
  lemma CanonicalIsPrint(base: nat, s: Digits)
    requires base >= 2 && InBase(base, s)
    ensures Canonical(s) == Print(base, Value(base, s))
  {
    ValueStrip(base, s);
    if Strip(s) != [] {
      PrintUnique(base, Strip(s));
    }
  }

  lemma {:induction false} LexGreaterSnoc(a: Digits, b: Digits, x: nat, y: nat)
    requires |a| == |b|
    ensures LexGreater(a + [x], b + [y]) <==> LexGreater(a, b) || (a == b && x > y)
  {
    if a == [] {
    } else {
      LexGreaterSnoc(a[1..], b[1..], x, y);
      assert (a + [x])[1..] == a[1..] + [x] && (b + [y])[1..] == b[1..] + [y];
      assert a == [a[0]] + a[1..] && b == [b[0]] + b[1..];
    }
  }

  lemma PairOrder(base: nat, q: nat, r: nat, p: nat, t: nat)
    requires r < base && t < base
    ensures q * base + r > p * base + t <==> q > p || (q == p && r > t)
  {
    Multiples(base, q, p);
    Multiples(base, p, q);
  }

  lemma {:induction false} SameLengthOrder(base: nat, a: Digits, b: Digits)
    requires InBase(base, a) && InBase(base, b) && |a| == |b|
    ensures LexGreater(a, b) <==> Value(base, a) > Value(base, b)
    ensures Value(base, a) == Value(base, b) ==> a == b
  {
    if a != [] {
      var n := |a| - 1;
      SameLengthOrder(base, a[..n], b[..n]);
      LexGreaterSnoc(a[..n], b[..n], a[n], b[n]);
      PairOrder(base, Value(base, a[..n]), a[n], Value(base, b[..n]), b[n]);
      PairOrder(base, Value(base, b[..n]), b[n], Value(base, a[..n]), a[n]);
      assert a == a[..n] + [a[n]] && b == b[..n] + [b[n]];
    }
  }

  lemma {:induction false} LongerIsGreater(base: nat, a: Digits, b: Digits)
    requires base >= 2 && InBase(base, a) && InBase(base, b)
    requires |a| > |b| && a[0] != 0
    ensures Value(base, a) > Value(base, b)
  {
    if b == [] {
      PositiveValue(base, a);
    } else {
      var n, k := |a| - 1, |b| - 1;
      LongerIsGreater(base, a[..n], b[..k]);
      PairOrder(base, Value(base, a[..n]), a[n], Value(base, b[..k]), b[k]);
    }
  }

  /** Comparing two numerals without leading zeros as text, longer first, decides
      the order of their values. */
  lemma ExceedsDecides(base: nat, a: Digits, b: Digits)
    requires base >= 2 && InBase(base, a) && InBase(base, b) && a != [] && b != []
    requires (a[0] == 0 ==> a == [0]) && (b[0] == 0 ==> b == [0])
    ensures Exceeds(a, b) <==> Value(base, a) > Value(base, b)
  {
    if |a| == |b| {
      SameLengthOrder(base, a, b);
    } else if |a| > |b| {
      LongerIsGreater(base, a, b);
    } else {
      LongerIsGreater(base, b, a);
    }
  }

  /** The comparison made on an arbitrary digit string, zero padded or not. */
  lemma PaddedExceedsDecides(base: nat, s: Digits, n: nat)
    requires base >= 2 && InBase(base, s)
    ensures Exceeds(Canonical(s), Print(base, n)) <==> Value(base, s) > n
  {
    CanonicalIsPrint(base, s);
    ValuePrint(base, n);
    ValuePrint(base, Value(base, s));
    ExceedsDecides(base, Canonical(s), Print(base, n));
  }
}
