/** Model of the random-string generator: the four fixed character classes,
    the reduction of one random draw to an index, and the generator that
    concatenates the enabled classes and draws one character per position.

    Randomness is injected: `rng(i)` is what the environment's random source
    yields on the i-th draw of a call. */
module RandomString {

  // ---------------------------------------------------------------------------
  // Character classes (the CHARSETS table)
  // ---------------------------------------------------------------------------

  const Lower: string := "abcdefghijklmnopqrstuvwxyz"
  const Upper: string := "ABCDEFGHIJKLMNOPQRSTUVWXYZ"
  const Digits: string := "0123456789"
  const Symbols: string := "!@#$%^&*()-_=+[]{};:,.<>?/~`"

  /** No character occurs twice in `s`. */
  predicate Distinct(s: string) {
    forall i, j :: 0 <= i < j < |s| ==> s[i] != s[j]
  }

  /** `a` and `b` have no character in common. */
  predicate Disjoint(a: string, b: string) {
    forall i :: 0 <= i < |a| ==> a[i] !in b
  }

  predicate Increasing(s: string) {
    forall i :: 0 <= i < |s| - 1 ==> s[i] < s[i + 1]
  }

  predicate Within(s: string, lo: char, hi: char) {
    forall i :: 0 <= i < |s| ==> lo <= s[i] <= hi
  }

  predicate IsLetterOrDigit(c: char) {
    'a' <= c <= 'z' || 'A' <= c <= 'Z' || '0' <= c <= '9'
  }

  lemma {:induction false} IncreasingIsDistinct(s: string)
    requires Increasing(s)
    ensures Distinct(s)
  {
    forall i, j | 0 <= i < j < |s| ensures s[i] < s[j] {
      IncreasingBetween(s, i, j);
    }
  }

  lemma {:induction false} IncreasingBetween(s: string, i: nat, j: nat)
    requires Increasing(s) && i < j < |s|
    ensures s[i] < s[j]
    decreases j - i
  {
    if i + 1 < j {
      IncreasingBetween(s, i + 1, j);
    }
  }

  lemma DisjointRanges(a: string, b: string, loA: char, hiA: char, loB: char, hiB: char)
    requires Within(a, loA, hiA) && Within(b, loB, hiB)
    requires hiA < loB || hiB < loA
    ensures Disjoint(a, b)
  {
  }

  lemma DisjointFromSymbols(a: string, lo: char, hi: char)
    requires Within(a, lo, hi)
    requires forall c :: lo <= c <= hi ==> IsLetterOrDigit(c)
    requires forall i :: 0 <= i < |Symbols| ==> !IsLetterOrDigit(Symbols[i])
    ensures Disjoint(a, Symbols)
  {
  }

  lemma LowerShape() ensures |Lower| == 26 && Increasing(Lower) && Within(Lower, 'a', 'z') {}
  lemma UpperShape() ensures |Upper| == 26 && Increasing(Upper) && Within(Upper, 'A', 'Z') {}
  lemma DigitsShape() ensures |Digits| == 10 && Increasing(Digits) && Within(Digits, '0', '9') {}
  lemma SymbolsShape()
    ensures |Symbols| == 28 && Distinct(Symbols)
    ensures forall i :: 0 <= i < |Symbols| ==> !IsLetterOrDigit(Symbols[i])
  {}

  /** The four alphabets have the sizes 26, 26, 10 and 28, none repeats a
      character, and no two of them share one. */
  lemma AlphabetsWellFormed()
    ensures |Lower| == 26 && |Upper| == 26 && |Digits| == 10 && |Symbols| == 28
    ensures Distinct(Lower) && Distinct(Upper) && Distinct(Digits) && Distinct(Symbols)
    ensures Disjoint(Lower, Upper) && Disjoint(Lower, Digits) && Disjoint(Lower, Symbols)
    ensures Disjoint(Upper, Digits) && Disjoint(Upper, Symbols) && Disjoint(Digits, Symbols)
  {
    LowerShape();
    UpperShape();
    DigitsShape();
    SymbolsShape();
    IncreasingIsDistinct(Lower);
    IncreasingIsDistinct(Upper);
    IncreasingIsDistinct(Digits);
    DisjointRanges(Lower, Upper, 'a', 'z', 'A', 'Z');
    DisjointRanges(Lower, Digits, 'a', 'z', '0', '9');
    DisjointRanges(Upper, Digits, 'A', 'Z', '0', '9');
    DisjointFromSymbols(Lower, 'a', 'z');
    DisjointFromSymbols(Upper, 'A', 'Z');
    DisjointFromSymbols(Digits, '0', '9');
  }

  // ---------------------------------------------------------------------------
  // Random draws (secureRandomInt)
  // ---------------------------------------------------------------------------

  datatype Fraction = Fraction(num: nat, den: nat)

  /** A value of Math.random(): a number in [0, 1), kept as an exact fraction. */
  type UnitFraction = f: Fraction | f.num < f.den witness Fraction(0, 1)

  /** What the environment yields for one call of secureRandomInt: a 32-bit
      word from crypto.getRandomValues when the Crypto API is present, or a
      Math.random() value otherwise. */
  datatype Draw = CryptoWord(word: Uint32) | MathRandom(u: UnitFraction)

  /** An element of a Uint32Array. */
  type Uint32 = x: int | 0 <= x < 0x1_0000_0000

  /** secureRandomInt(max): the crypto branch reduces the word modulo max;
      the fallback branch is floor(u * max). */
  function SecureRandomInt(max: nat, d: Draw): (r: nat)
    requires max > 0
    ensures r < max
    ensures d.CryptoWord? && d.word < max ==> r == d.word
    ensures d.MathRandom? ==> r * d.u.den <= d.u.num * max < (r + 1) * d.u.den
  {
    match d
    case CryptoWord(w) => WordIndex(w, max)
    case MathRandom(u) => FractionIndex(u, max)
  }

  /** The crypto branch: `arr[0] % max`. */
  function WordIndex(w: Uint32, max: nat): (r: nat)
    requires max > 0
    ensures r < max
    ensures w < max ==> r == w
  {
    w % max
  }

  /** The fallback branch: `Math.floor(Math.random() * max)`, in exact arithmetic. */
  function FractionIndex(u: UnitFraction, max: nat): (r: nat)
    requires max > 0
    ensures r < max
    ensures r * u.den <= u.num * max < (r + 1) * u.den
  {
    FloorBelow(u.num, u.den, max);
    u.num * max / u.den
  }

  /** In the crypto branch the index is the remainder of dividing the word by max. */
  lemma CryptoIndexIsRemainder(max: nat, w: Uint32)
    requires max > 0
    ensures w == (w / max) * max + SecureRandomInt(max, CryptoWord(w))
  {
  }

  /** floor(num * max / den) lies in [0, max) and brackets num * max. */
  lemma FloorBelow(num: nat, den: nat, max: nat)
    requires num < den && max > 0
    ensures num * max / den < max
    ensures (num * max / den) * den <= num * max < (num * max / den + 1) * den
  {
    var p := num * max;
    var q := p / den;
    assert p == q * den + p % den;
    assert p < den * max by {
      assert den * max - p == (den - num) * max;
    }
  }

  // ---------------------------------------------------------------------------
  // The generator (generateRandomString)
  // ---------------------------------------------------------------------------

  /** The four independent class flags of a generation request. */
  datatype Classes = Classes(lower: bool, upper: bool, digits: bool, symbols: bool)

  const DefaultLength: int := 12
  const DefaultClasses: Classes := Classes(true, true, true, false)

  /** The alphabets of the enabled classes, in the order lower, upper, digits, symbols. */
  function EnabledSets(k: Classes): (sets: seq<string>)
    ensures |sets| == (if k.lower then 1 else 0) + (if k.upper then 1 else 0)
                    + (if k.digits then 1 else 0) + (if k.symbols then 1 else 0)
  {
    (if k.lower then [Lower] else []) + (if k.upper then [Upper] else [])
    + (if k.digits then [Digits] else []) + (if k.symbols then [Symbols] else [])
  }

  /** `sets.join('')`. */
  function Join(sets: seq<string>): (s: string)
    ensures forall c :: c in s <==> exists i :: 0 <= i < |sets| && c in sets[i]
  {
    if sets == [] then "" else sets[0] + Join(sets[1..])
  }

  lemma {:induction false} JoinAppend(a: seq<string>, b: seq<string>)
    ensures Join(a + b) == Join(a) + Join(b)
  {
    if a != [] {
      assert (a + b)[1..] == a[1..] + b;
      JoinAppend(a[1..], b);
    } else {
      assert a + b == b;
    }
  }

  lemma JoinSingle(s: string)
    ensures Join([s]) == s
  {
  }

  function Part(on: bool, alphabet: string): string {
    if on then alphabet else ""
  }

  /** The combined alphabet of a request. */
  function Charset(k: Classes): string {
    Join(EnabledSets(k))
  }

  /** The combined alphabet is the concatenation, in the fixed order lower,
      upper, digits, symbols, of exactly the enabled alphabets. */
  lemma CharsetIsOrderedConcatenation(k: Classes)
    ensures Charset(k) == Part(k.lower, Lower) + Part(k.upper, Upper)
                          + Part(k.digits, Digits) + Part(k.symbols, Symbols)
  {
    var a := if k.lower then [Lower] else [];
    var b := if k.upper then [Upper] else [];
    var c := if k.digits then [Digits] else [];
    var d := if k.symbols then [Symbols] else [];
    JoinSingle(Lower); JoinSingle(Upper); JoinSingle(Digits); JoinSingle(Symbols);
    assert Join(a) == Part(k.lower, Lower);
    assert Join(b) == Part(k.upper, Upper);
    assert Join(c) == Part(k.digits, Digits);
    assert Join(d) == Part(k.symbols, Symbols);
    JoinAppend(a + b + c, d);
    JoinAppend(a + b, c);
    JoinAppend(a, b);
  }

  /** The size of the combined alphabet, and it is empty exactly when no class is enabled. */
  lemma CharsetSize(k: Classes)
    ensures |Charset(k)| == (if k.lower then 26 else 0) + (if k.upper then 26 else 0)
                            + (if k.digits then 10 else 0) + (if k.symbols then 28 else 0)
    ensures Charset(k) == [] <==> !(k.lower || k.upper || k.digits || k.symbols)
  {
    CharsetIsOrderedConcatenation(k);
  }

  /** A character is in the combined alphabet exactly when an enabled class contains it. */
  lemma CharsetMembership(k: Classes, c: char)
    ensures c in Charset(k) <==>
      (k.lower && c in Lower) || (k.upper && c in Upper)
      || (k.digits && c in Digits) || (k.symbols && c in Symbols)
  {
    CharsetIsOrderedConcatenation(k);
  }

  lemma {:induction false} AppendDistinct(a: string, b: string)
    requires Distinct(a) && Distinct(b) && Disjoint(a, b)
    ensures Distinct(a + b)
  {
  }

  lemma DisjointFromParts(a: string, p: string, q: string)
    requires Disjoint(p, a) && Disjoint(q, a)
    ensures Disjoint(p + q, a)
  {
  }

  /** With the classes disjoint, the combined alphabet never repeats a
      character, so every enabled class contributes its full share of indices. */
  lemma CharsetDistinct(k: Classes)
    ensures Distinct(Charset(k))
  {
    AlphabetsWellFormed();
    CharsetIsOrderedConcatenation(k);
    var l, u, d, s := Part(k.lower, Lower), Part(k.upper, Upper), Part(k.digits, Digits), Part(k.symbols, Symbols);
    AppendDistinct(l, u);
    DisjointFromParts(d, l, u);
    AppendDistinct(l + u, d);
    DisjointFromParts(s, l, u);
    DisjointFromParts(s, l + u, d);
    AppendDistinct(l + u + d, s);
  }

  /** Every character of every alphabet belongs to exactly one class. */
  lemma ClassOfCharacterIsUnique(c: char)
    ensures (if c in Lower then 1 else 0) + (if c in Upper then 1 else 0)
            + (if c in Digits then 1 else 0) + (if c in Symbols then 1 else 0) <= 1
  {
    AlphabetsWellFormed();
  }

  /** The string the generator returns for a request and a sequence of draws. */
  ghost function Generated(length: int, k: Classes, rng: nat -> Draw): (r: string)
    ensures |r| == if Charset(k) == [] || length < 0 then 0 else length
  {
    var charset := Charset(k);
    if charset == [] then ""
    else seq(if length < 0 then 0 else length,
             i requires 0 <= i => charset[SecureRandomInt(|charset|, rng(i))])
  }

  /** generateRandomString(length, classes), drawing rng(0), rng(1), ... in turn. */
  method GenerateRandomString(length: int, k: Classes, rng: nat -> Draw) returns (result: string)
    ensures result == Generated(length, k, rng)
    ensures Charset(k) == [] ==> result == ""
    ensures Charset(k) != [] ==> |result| == (if length < 0 then 0 else length)
    ensures forall i :: 0 <= i < |result| ==> result[i] == Charset(k)[SecureRandomInt(|Charset(k)|, rng(i))]
  {
    var sets: seq<string> := [];
    if k.lower { sets := sets + [Lower]; }
    if k.upper { sets := sets + [Upper]; }
    if k.digits { sets := sets + [Digits]; }
    if k.symbols { sets := sets + [Symbols]; }
    assert sets == EnabledSets(k);
    CharsetSize(k);

    if |sets| == 0 {
      return "";
    }

    var charset := Join(sets);
    assert charset == Charset(k);
    result := "";
    var i := 0;
    while i < length
      invariant 0 <= i <= (if length < 0 then 0 else length)
      invariant |result| == i
      invariant forall j :: 0 <= j < i ==> result[j] == charset[SecureRandomInt(|charset|, rng(j))]
    {
      result := result + [charset[SecureRandomInt(|charset|, rng(i))]];
      i := i + 1;
    }
    assert |result| == |Generated(length, k, rng)|;
    assert forall j :: 0 <= j < |result| ==> result[j] == Generated(length, k, rng)[j];
  }

  /** With no class enabled the result is empty for every length. */
  lemma NoClassGivesEmpty(length: int, rng: nat -> Draw)
    ensures Generated(length, Classes(false, false, false, false), rng) == ""
  {
  }

  /** With some class enabled the result has exactly `length` characters
      (none when `length <= 0`), and each belongs to an enabled class. */
  lemma GeneratedShape(length: int, k: Classes, rng: nat -> Draw)
    requires k.lower || k.upper || k.digits || k.symbols
    ensures |Generated(length, k, rng)| == (if length <= 0 then 0 else length)
    ensures forall i :: 0 <= i < |Generated(length, k, rng)| ==>
      var c := Generated(length, k, rng)[i];
      (k.lower && c in Lower) || (k.upper && c in Upper)
      || (k.digits && c in Digits) || (k.symbols && c in Symbols)
  {
    CharsetSize(k);
    var r := Generated(length, k, rng);
    forall i | 0 <= i < |r|
      ensures (k.lower && r[i] in Lower) || (k.upper && r[i] in Upper)
              || (k.digits && r[i] in Digits) || (k.symbols && r[i] in Symbols)
    {
      var cs := Charset(k);
      assert r[i] == cs[SecureRandomInt(|cs|, rng(i))];
      CharsetMembership(k, r[i]);
    }
  }

  /** With crypto draws, position i of the result is charset[word_i % |charset|]. */
  lemma GeneratedFromWords(length: int, k: Classes, words: nat -> Uint32, i: nat)
    requires k.lower || k.upper || k.digits || k.symbols
    requires i < length
    ensures Generated(length, k, (j: nat) => CryptoWord(words(j)))[i] == Charset(k)[words(i) % |Charset(k)|]
  {
    CharsetSize(k);
    var cs := Charset(k);
    var g := Generated(length, k, (j: nat) => CryptoWord(words(j)));
    assert g[i] == cs[SecureRandomInt(|cs|, CryptoWord(words(i)))];
  }

  /** The defaults: lower, upper and digits on, symbols off, length 12 give a
      62-character alphabet and a 12-character result drawn from it. */
  lemma Defaults(rng: nat -> Draw)
    ensures |Charset(DefaultClasses)| == 62
    ensures Charset(DefaultClasses) == Lower + Upper + Digits
    ensures |Generated(DefaultLength, DefaultClasses, rng)| == 12
  {
  }
}
