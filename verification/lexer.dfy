/**
  The lexical layer of the query grammar: ASCII character classes,
  whitespace skipping, words, quoted text and numbers. Every parser reads a
  fixed input `s` from a position `p` and answers with a `Res`.
 */
module Lexer {

  /** The outcome of a parser at a position: a value and the position
      after it, no match (the caller may try an alternative), or an error
      thrown by a semantic action, which ends the whole parse. */
  datatype Res<+T, +E> = Match(value: T, pos: nat) | NoMatch | Abort(error: E)

  /** The ASCII classes of the grammar (`ascii::space`, `lower`, ...). */
  predicate IsSpace(c: char) {
    c == ' ' || ('\t' <= c <= '\r')
  }

  predicate IsLower(c: char) {
    'a' <= c <= 'z'
  }

  predicate IsUpper(c: char) {
    'A' <= c <= 'Z'
  }

  predicate IsDigit(c: char) {
    '0' <= c <= '9'
  }

  predicate IsAlpha(c: char) {
    IsLower(c) || IsUpper(c)
  }

  /** The classes a word may start with. */
  datatype Initial = Lower | Upper | Letter

  predicate Starts(c: char, k: Initial) {
    match k
    case Lower => IsLower(c)
    case Upper => IsUpper(c)
    case Letter => IsAlpha(c)
  }

  /** The characters that may continue a word: `alnum | '_'`. */
  predicate IsWordChar(c: char) {
    IsAlpha(c) || IsDigit(c) || c == '_'
  }

  /** The first non-space position from `p` on. */
  function Skip(s: string, p: nat): (r: nat)
    requires p <= |s|
    ensures p <= r <= |s|
    ensures r == |s| || !IsSpace(s[r])
    decreases |s| - p
  {
    if p < |s| && IsSpace(s[p]) then Skip(s, p + 1) else p
  }

  /** The end of the longest run of word characters from `p` on. */
  function WordEnd(s: string, p: nat): (r: nat)
    requires p <= |s|
    ensures p <= r <= |s|
    ensures r == |s| || !IsWordChar(s[r])
    decreases |s| - p
  {
    if p < |s| && IsWordChar(s[p]) then WordEnd(s, p + 1) else p
  }

  /** Only spaces are skipped, so `Skip` stops at the first non-space. */
  lemma {:induction false} SkipOnlySpaces(s: string, p: nat)
    requires p <= |s|
    ensures forall k :: p <= k < Skip(s, p) ==> IsSpace(s[k])
    decreases |s| - p
  {
    if p < |s| && IsSpace(s[p]) {
      SkipOnlySpaces(s, p + 1);
    }
  }

  /** The run `WordEnd` passes over is all word characters, so it stops
      at the first character that cannot continue a word. */
  lemma {:induction false} WordEndOnlyWordChars(s: string, p: nat)
    requires p <= |s|
    ensures forall k :: p <= k < WordEnd(s, p) ==> IsWordChar(s[k])
    decreases |s| - p
  {
    if p < |s| && IsWordChar(s[p]) {
      WordEndOnlyWordChars(s, p + 1);
    }
  }

  /** A word whose first letter is of class `first`, followed by any word
      characters: `lower >> *(alnum | '_')` and its relatives. */
  function Word(s: string, p: nat, first: Initial): (r: Res<string, bool>)
    requires p <= |s|
    ensures r.Abort? == false
    ensures r.Match? <==> p < |s| && Starts(s[p], first)
    ensures r.Match? ==> p < r.pos <= |s| && r.value == s[p..r.pos]
  {
    if p < |s| && Starts(s[p], first) then
      var e := WordEnd(s, p + 1);
      Match(s[p..e], e)
    else NoMatch
  }

  /** The first position from `p` on that holds `q`, or the end. */
  function FindChar(s: string, p: nat, q: char): (r: nat)
    requires p <= |s|
    ensures p <= r <= |s|
    ensures r < |s| ==> s[r] == q
    decreases |s| - p
  {
    if p < |s| && s[p] != q then FindChar(s, p + 1, q) else p
  }

  /** No occurrence of `q` is skipped over. */
  lemma {:induction false} FindCharFirst(s: string, p: nat, q: char)
    requires p <= |s|
    ensures forall i :: p <= i < FindChar(s, p, q) ==> s[i] != q
    decreases |s| - p
  {
    if p < |s| && s[p] != q {
      FindCharFirst(s, p + 1, q);
    }
  }

  /** `q >> +(char_ - q) >> q`: non-empty text between two quote marks,
      without the quotes. */
  function Quoted(s: string, p: nat, q: char): (r: Res<string, bool>)
    requires p <= |s|
    ensures r.Abort? == false
    ensures r.Match? ==> p + 2 < r.pos <= |s| && s[p] == q && s[r.pos - 1] == q
                         && r.value == s[p + 1..r.pos - 1]
  {
    if p < |s| && s[p] == q then
      var e := FindChar(s, p + 1, q);
      if p + 1 < e < |s| then Match(s[p + 1..e], e + 1) else NoMatch
    else NoMatch
  }

  /** Quoted text never contains the quote mark. */
  lemma {:induction false} QuotedHasNoQuote(s: string, p: nat, q: char)
    requires p <= |s|
    ensures Quoted(s, p, q).Match? ==> q !in Quoted(s, p, q).value
  {
    if p < |s| && s[p] == q {
      FindCharFirst(s, p + 1, q);
    }
  }

  /** Quoted text is recognised exactly when it is well formed. */
  lemma {:induction false} QuotedComplete(s: string, p: nat, q: char, w: string)
    requires p + |w| + 2 <= |s| && |w| > 0 && q !in w
    requires s[p] == q && s[p + 1..p + 1 + |w|] == w && s[p + 1 + |w|] == q
    ensures Quoted(s, p, q) == Match(w, p + |w| + 2)
  {
    FindCharAt(s, p + 1, q, |w|);
  }

  /** `q` first occurs `k` characters on. */
  lemma {:induction false} FindCharAt(s: string, p: nat, q: char, k: nat)
    requires p + k < |s| && s[p + k] == q
    requires forall i :: p <= i < p + k ==> s[i] != q
    ensures FindChar(s, p, q) == p + k
    decreases k
  {
    if k > 0 {
      FindCharAt(s, p + 1, q, k - 1);
    }
  }

  // ---------------------------------------------------------------------
  // Numbers (`qi::double_` without nan and inf)
  // ---------------------------------------------------------------------

  /** The end of the run of digits from `p` on. */
  function DigitsEnd(s: string, p: nat): (r: nat)
    requires p <= |s|
    ensures p <= r <= |s|
    ensures r == |s| || !IsDigit(s[r])
    decreases |s| - p
  {
    if p < |s| && IsDigit(s[p]) then DigitsEnd(s, p + 1) else p
  }

  /** The value of a decimal digit (zero for any other character). */
  function DigitValue(c: char): (r: nat)
    ensures r < 10
    ensures IsDigit(c) ==> r as int + '0' as int == c as int
  {
    if IsDigit(c) then c as int - '0' as int else 0
  }

  /** The value of the decimal digits `s[a..b]`, most significant first. */
  function DigitsValue(s: string, a: nat, b: nat): (r: nat)
    requires a <= b <= |s|
    ensures b - a > 0 ==> r < Pow10(b - a)
    decreases b - a
  {
    if b == a then 0 else DigitsValue(s, a, b - 1) * 10 + DigitValue(s[b - 1])
  }

  function Pow10(n: nat): (r: nat)
    ensures r >= 1
  {
    if n == 0 then 1 else 10 * Pow10(n - 1)
  }

  /** `10` raised to an integer exponent. */
  function Scale(e: int): (r: real)
    ensures r > 0.0
  {
    if e >= 0 then Pow10(e) as real else 1.0 / Pow10(-e) as real
  }

  /** The optional exponent at `e`: `(e|E) [+-]? digits+`, as its value and
      the position after it; without digits the `e` is not consumed. */
  function Exponent(s: string, e: nat): (r: (int, nat))
    requires e <= |s|
    ensures e <= r.1 <= |s|
    ensures r.1 == e ==> r.0 == 0
  {
    if e < |s| && (s[e] == 'e' || s[e] == 'E') then
      var q := if e + 1 < |s| && (s[e + 1] == '+' || s[e + 1] == '-') then e + 2 else e + 1;
      var de := DigitsEnd(s, q);
      if de > q then
        var v: int := DigitsValue(s, q, de);
        (if q == e + 2 && s[e + 1] == '-' then -v else v, de)
      else (0, e)
    else (0, e)
  }

  /**
    A real number: an optional sign, digits, an optional `.` with
    optional fraction digits (at least one digit overall), and an
    optional exponent.
   */
  function Number(s: string, p: nat): (r: Res<real, bool>)
    requires p <= |s|
    ensures r.Abort? == false
    ensures r.Match? ==> p < r.pos <= |s|
  {
    var q0 := if p < |s| && (s[p] == '+' || s[p] == '-') then p + 1 else p;
    var negative := q0 > p && s[p] == '-';
    var ie := DigitsEnd(s, q0);
    var whole := DigitsValue(s, q0, ie) as real;
    if ie < |s| && s[ie] == '.' then
      var fe := DigitsEnd(s, ie + 1);
      if fe == ie + 1 && ie == q0 then NoMatch
      else
        var mantissa := whole + DigitsValue(s, ie + 1, fe) as real / Pow10(fe - ie - 1) as real;
        var (x, end) := Exponent(s, fe);
        Match((if negative then -mantissa else mantissa) * Scale(x), end)
    else if ie == q0 then NoMatch
    else
      var (x, end) := Exponent(s, ie);
      Match((if negative then -whole else whole) * Scale(x), end)
  }

  /** A run of digits with nothing after it reads as its decimal value. */
  lemma {:induction false} NumberOfDigits(s: string, p: nat)
    requires p < |s| && IsDigit(s[p]) && DigitsEnd(s, p) == |s|
    ensures Number(s, p) == Match(DigitsValue(s, p, |s|) as real, |s|)
  {
    assert !(s[p] == '+' || s[p] == '-');
    assert Exponent(s, |s|) == (0, |s|);
  }

  /** A sign and a fraction. */
  lemma {:induction false} NumberSignedFraction()
    ensures Number("-45.64", 0) == Match(-45.64, 6)
  {
    var s := "-45.64";
    assert DigitsEnd(s, 1) == 3;
    assert DigitsValue(s, 1, 3) == 45;
    assert DigitsEnd(s, 4) == 6;
    assert DigitsValue(s, 4, 6) == 64;
    assert Exponent(s, 6) == (0, 6);
  }

  /** An exponent scales the mantissa. */
  lemma {:induction false} NumberExponent()
    ensures Number("2.5e2", 0) == Match(250.0, 5)
  {
    var s := "2.5e2";
    assert DigitsEnd(s, 0) == 1;
    assert DigitsValue(s, 0, 1) == 2;
    assert DigitsEnd(s, 2) == 3;
    assert DigitsValue(s, 2, 3) == 5;
    assert DigitsEnd(s, 4) == 5;
    assert Exponent(s, 3) == (2, 5);
  }

  /** An `e` without exponent digits is left unread; a leading dot is
      allowed; a sign or a dot alone is no number. */
  lemma {:induction false} NumberEdges()
    ensures Number("1e", 0) == Match(1.0, 1)
    ensures Number(".5", 0) == Match(0.5, 2)
    ensures Number("-", 0) == NoMatch
    ensures Number(".", 0) == NoMatch
  {
    assert DigitsEnd("1e", 0) == 1;
    assert Exponent("1e", 1) == (0, 1);
    assert DigitsEnd(".5", 1) == 2;
    assert DigitsValue(".5", 1, 2) == 5;
    assert Exponent(".5", 2) == (0, 2);
  }
}
