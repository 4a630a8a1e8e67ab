/** What the two memory parsers make of each written form: every unit, decimals, signs, separators and no number. */
module QuantityForms {
  import opened Wrappers
  import opened MemoryQuantities

  /** Digit strings are read as decimal numbers. */
  lemma {:induction false} AppendDigit(d: string, c: char)
    requires AllDigits(d) && '0' <= c <= '9'
    ensures Number("") == 0 && Number(d + [c]) == 10 * Number(d) + (c as int - '0' as int)
  {
    assert (d + [c])[..|d|] == d;
  }

  /** White space as Python sees it, in ASCII. */
  lemma {:induction false} WhiteSpaceIs(c: char)
    ensures IsSpace(c) <==> c as int in {9, 10, 11, 12, 13, 28, 29, 30, 31, 32}
  {
  }

  lemma {:induction false} UnitsOf(u: string)
    ensures var v := LowerAll(u);
      && (|u| == 0 ==> GrammarUnit(v) == Some(1) && ScannerUnit(v) == 1)
      && (v == "k" || v == "kb" ==> GrammarUnit(v) == Some(1000))
      && (v == "m" || v == "mb" ==> GrammarUnit(v) == Some(1000000))
      && (v == "g" || v == "gb" ==> GrammarUnit(v) == Some(1000000000))
      && (v == "ki" ==> GrammarUnit(v) == Some(1024))
      && (v == "mi" ==> GrammarUnit(v) == Some(1048576))
      && (v == "gi" ==> GrammarUnit(v) == Some(1073741824))
      && (v == "kib" ==> ScannerOnly(v) && ScannerUnit(v) == 1024)
      && (v == "mib" ==> ScannerOnly(v) && ScannerUnit(v) == 1048576)
      && (v == "gib" ==> ScannerOnly(v) && ScannerUnit(v) == 1073741824)
  {
  }

  /** The units of both parsers, in any case. */
  lemma {:induction false} UnitsMean(n: nat, u: string)
    ensures var v, g, s := LowerAll(u), ParseGrammar(Print(n) + u), Scanned(Print(n) + u);
      && (|u| == 0 ==> g == Success(n) && s == Success(n))
      && (v == "k" || v == "kb" ==> g == Success(n * 1000) && s == Success(n * 1000))
      && (v == "m" || v == "mb" ==> g == Success(n * 1000000) && s == Success(n * 1000000))
      && (v == "g" || v == "gb" ==> g == Success(n * 1000000000) && s == Success(n * 1000000000))
      && (v == "ki" ==> g == Success(n * 1024) && s == Success(n * 1024))
      && (v == "mi" ==> g == Success(n * 1048576) && s == Success(n * 1048576))
      && (v == "gi" ==> g == Success(n * 1073741824) && s == Success(n * 1073741824))
      && (v == "kib" ==> g.Failure? && s == Success(n * 1024))
      && (v == "mib" ==> g.Failure? && s == Success(n * 1048576))
      && (v == "gib" ==> g.Failure? && s == Success(n * 1073741824))
  {
    UnitsOf(u);
    hide GrammarUnit, ScannerUnit, ParseGrammar, Scanned, Print, Number, LowerAll, ScannerOnly;
    if GrammarUnit(LowerAll(u)).Some? {
      PrintThenParse(n, u);
    } else if ScannerOnly(LowerAll(u)) {
      ScannerOnlyUnits(Print(n), u);
    }
  }

  /** Case does not matter to a unit: letters become small ones, everything else stays. */
  lemma {:induction false} LowerIs(u: string, i: nat)
    requires i < |u|
    ensures |LowerAll(u)| == |u|
    ensures 'A' <= u[i] <= 'Z' ==> LowerAll(u)[i] - 'a' == u[i] - 'A'
    ensures !('A' <= u[i] <= 'Z') ==> LowerAll(u)[i] == u[i]
  {
  }

  // ---------- white space around a quantity ----------

  lemma {:induction false} LeftPadding(w: string, s: string)
    requires AllSpaces(w)
    ensures StripLeft(w + s) == StripLeft(s)
  {
    if w == [] {
      assert w + s == s;
    } else {
      assert (w + s)[1..] == w[1..] + s;
      LeftPadding(w[1..], s);
    }
  }

  lemma {:induction false} RightPadding(s: string, w: string)
    requires AllSpaces(w)
    ensures StripRight(s + w) == StripRight(s)
  {
    if w == [] {
      assert s + w == s;
    } else {
      assert (s + w)[..|s + w| - 1] == s + w[..|w| - 1];
      RightPadding(s, w[..|w| - 1]);
    }
  }

  lemma {:induction false} StripLeftBeforePadding(s: string, w: string)
    requires AllSpaces(w)
    ensures StripRight(StripLeft(s + w)) == StripRight(StripLeft(s))
  {
    hide StripRight;
    if s == [] {
      LeftPadding(w, []);
      assert s + w == w == w + [];
    } else if IsSpace(s[0]) {
      assert (s + w)[1..] == s[1..] + w;
      StripLeftBeforePadding(s[1..], w);
    } else {
      RightPadding(s, w);
    }
  }

  /** Neither parser minds white space around the string. */
  lemma {:induction false} PaddingIsIgnored(left: string, s: string, right: string)
    requires AllSpaces(left) && AllSpaces(right)
    ensures Scanned(left + s + right) == Scanned(s)
    ensures ParseGrammar(left + s + right) == ParseGrammar(s)
  {
    assert Strip(left + s + right) == Strip(s) by {
      hide StripLeft, StripRight;
      StripLeftBeforePadding(left + s, right);
      LeftPadding(left, s);
    }
    hide Strip, StripLeft;
  }

  // ---------- forms only the scanner reads ----------

  /** A number without digits and dots, such as "abc" or "", is 0. */
  lemma {:induction false} NoNumberIsZero(s: string)
    requires NoDigits(s) && '.' !in s
    ensures Scanned(s) == Success(0)
  {
    hide Strip, LowerAll, Keep, ParseInt, ScannerUnit;
    var t := LowerAll(Strip(s));
    KeepStripped(IsNumeral, s);
    KeepStripped(IsDigit, s);
    NumeralsKept(s);
    DigitsKept(s);
    if ParseInt(t).Some? {
      IntHasNoDot(t);
    }
  }

  /** An unknown unit counts as one to the scanner and is refused by the grammar. */
  lemma {:induction false} UnknownUnitIsOne(d: string, u: string)
    requires d != [] && AllDigits(d) && u != "" && forall i | 0 <= i < |u| :: NotNumeral(u[i]) && !IsSpace(u[i])
    requires LowerAll(u) != "k" && LowerAll(u) != "kb" && LowerAll(u) != "ki" && LowerAll(u) != "kib"
    requires LowerAll(u) != "m" && LowerAll(u) != "mb" && LowerAll(u) != "mi" && LowerAll(u) != "mib"
    requires LowerAll(u) != "g" && LowerAll(u) != "gb" && LowerAll(u) != "gi" && LowerAll(u) != "gib"
    ensures Scanned(d + u) == Success(Number(d)) && ParseGrammar(d + u).Failure?
  {
    GrammarRefuses(d, u);
    LetterStays(u);
    assert ScannerUnit(LowerAll(u)) == 1;
    hide Strip, Scanned, ScannerUnit, ParseGrammar, Number, LowerAll;
    ScannedDirect(d + u, d, u);
  }

  lemma {:induction false} LetterStays(u: string)
    requires forall i | 0 <= i < |u| :: NotNumeral(u[i])
    ensures forall i | 0 <= i < |u| :: NotNumeral(LowerAll(u)[i])
  {
  }

  lemma {:induction false} DigitsBody(d: string)
    requires d != [] && AllDigits(d)
    ensures IsIntBody(d)
  {
  }

  lemma {:induction false} ParseSigned(s: string)
    requires s != [] && (s[0] == '-' || s[0] == '+') && s[1..] != [] && AllDigits(s[1..])
    ensures var n: int := Number(s[1..]); ParseInt(s) == Some(if s[0] == '-' then -n else n)
  {
    DigitsBody(s[1..]);
    hide Keep, Number, IsIntBody;
    KeepAllOrNone(IsDigit, s[1..]);
  }

  /** A sign before the digits is read. */
  lemma {:induction false} SignedIs(s: string)
    requires s != [] && (s[0] == '-' || s[0] == '+') && s[1..] != [] && AllDigits(s[1..])
    ensures var n: int := Number(s[1..]); Scanned(s) == Success(if s[0] == '-' then -n else n)
  {
    ParseSigned(s);
    hide ParseInt, Number, Scanned;
    assert forall i | 1 <= i < |s| :: s[i] == s[1..][i - 1];
    LiteralIs(s);
  }

  lemma {:induction false} UnderscoredBody(a: string, b: string, s: string)
    requires a != [] && AllDigits(a) && b != [] && AllDigits(b) && s == a + ['_'] + b
    ensures IsIntBody(s)
  {
    assert s[|a|] == '_' && s[|s| - 1] == b[|b| - 1];
  }

  lemma {:induction false} UnderscoredDigits(a: string, b: string)
    requires AllDigits(a) && AllDigits(b)
    ensures Keep(IsDigit, a + ['_'] + b) == a + b
  {
    hide Keep;
    KeepThree(IsDigit, a, ['_'], b);
    KeepAll(IsDigit, a);
    KeepAll(IsDigit, b);
    KeepNone(IsDigit, ['_']);
  }

  lemma {:induction false} ParseBody(s: string, d: string)
    requires IsIntBody(s) && Keep(IsDigit, s) == d && AllDigits(d)
    ensures ParseInt(s) == Some(Number(d))
  {
    hide Keep, Number;
  }

  /** An underscore between digits is read over. */
  lemma {:induction false} UnderscoreIs(a: string, b: string)
    requires a != [] && AllDigits(a) && b != [] && AllDigits(b)
    ensures Scanned(a + ['_'] + b) == Success(Number(a + b))
  {
    hide Keep, Number, Scanned, ParseInt;
    var s := a + ['_'] + b;
    UnderscoredBody(a, b, s);
    UnderscoredDigits(a, b);
    ParseBody(s, a + b);
    hide IsIntBody;
    LiteralIs(s);
  }

  predicate IsLetter(c: char) { 'a' <= c <= 'z' || 'A' <= c <= 'Z' }

  lemma {:induction false} IntHasNoLetter(t: string, i: nat)
    requires i < |t| && IsLetter(t[i])
    ensures ParseInt(t) == None
  {
    hide Keep, Number;
    if t[0] == '-' || t[0] == '+' {
      assert t[1..][i - 1] == t[i];
    }
  }

  lemma {:induction false} KeepSwaps(p: char -> bool, a: string, c: char, x: char, b: string)
    requires p(c) != p(x)
    ensures Keep(p, a + [c] + ([x] + b)) == Keep(p, a + [x] + ([c] + b))
  {
    hide Keep;
    KeepThree(p, a, [c], [x] + b);
    KeepConcat(p, [x], b);
    KeepThree(p, a, [x], [c] + b);
    KeepConcat(p, [c], b);
    KeepAllOrNone(p, [c]);
    KeepAllOrNone(p, [x]);
  }

  lemma {:induction false} LowerSwapped(a: string, c: char, x: char, b: string)
    ensures LowerAll(a + [c] + ([x] + b)) == LowerAll(a) + [Lower(c)] + ([Lower(x)] + LowerAll(b))
  {
  }

  /** The scanner does not mind where the letters stand: a letter and a digit or dot beside it may change places. */
  lemma {:induction false} LettersStandAnywhere(a: string, c: char, x: char, b: string)
    requires IsLetter(c) && IsNumeral(x)
    requires forall y | y in a + b :: !IsSpace(y)
    ensures Scanned(a + [c] + ([x] + b)) == Scanned(a + [x] + ([c] + b))
  {
    var s, t := a + [c] + ([x] + b), a + [x] + ([c] + b);
    NoSpacesNoStrip(s);
    NoSpacesNoStrip(t);
    LowerSwapped(a, c, x, b);
    LowerSwapped(a, x, c, b);
    var low, lows, lowt := Lower(c), LowerAll(s), LowerAll(t);
    assert lows[|a|] == low && lowt[|a| + 1] == low && IsLetter(low);
    hide Strip, Keep, ParseInt, Scale, ScannerUnit, LowerAll;
    IntHasNoLetter(lows, |a|);
    IntHasNoLetter(lowt, |a| + 1);
    KeepSwaps(IsNumeral, LowerAll(a), low, x, LowerAll(b));
    KeepSwaps(NotNumeral, LowerAll(a), low, x, LowerAll(b));
  }

  /** Without white space and letters, the scanner returns what `int` makes of the string, if anything. */
  lemma {:induction false} LiteralIs(s: string)
    requires forall i | 0 <= i < |s| :: IsDigit(s[i]) || s[i] in {'-', '+', '_'}
    ensures ParseInt(s).Some? ==> Scanned(s) == Success(ParseInt(s).value)
  {
    NoSpacesNoStrip(s);
    assert LowerAll(s) == s;
    hide ParseInt, Keep, Strip, LowerAll;
  }

  // ---------- decimals ----------

  lemma {:induction false} PowersOfTen(k: nat)
    ensures Pow10(0) == 1 && Pow10(k + 1) == 10 * Pow10(k)
  {
  }

  lemma {:induction false} DecimalsAre(a: string, b: string)
    requires AllDigits(a) && AllDigits(b)
    ensures Decimals(a + ['.'] + b) == |b|
  {
    var s := a + ['.'] + b;
    assert s[|a|] == '.';
    if b != [] {
      var front := b[..|b| - 1];
      assert s[..|s| - 1] == a + ['.'] + front && s[|s| - 1] == b[|b| - 1];
      DecimalsAre(a, front);
    }
  }

  lemma {:induction false} DottedDigits(a: string, b: string, num: string)
    requires AllDigits(a) && AllDigits(b) && num == a + ['.'] + b
    ensures Keep(IsDigit, num) == a + b && |Keep(IsDot, num)| == 1
    ensures Keep(IsNumeral, num) == num && Keep(NotNumeral, num) == []
  {
    hide Keep;
    KeepThree(IsDigit, a, ['.'], b);
    KeepAll(IsDigit, a);
    KeepAll(IsDigit, b);
    KeepNone(IsDigit, ['.']);
    KeepThree(IsDot, a, ['.'], b);
    KeepNone(IsDot, a);
    KeepNone(IsDot, b);
    KeepAll(IsDot, ['.']);
    KeepAll(IsNumeral, num);
    KeepNone(NotNumeral, num);
  }

  lemma {:induction false} DecimalScale(a: string, b: string, mul: nat)
    requires AllDigits(a) && AllDigits(b) && a + b != []
    ensures Scale(a + ['.'] + b, mul) == Success(Number(a + b) * mul / Pow10(|b|))
  {
    hide Keep, Number, Decimals, Pow10;
    DecimalsAre(a, b);
    DottedDigits(a, b, a + ['.'] + b);
  }

  /** What the scanner separates in a stripped number with a unit. */
  lemma {:induction false} SeparatedAre(num: string, u: string)
    requires Keep(IsNumeral, num) == num && Keep(NotNumeral, num) == []
    requires forall i | 0 <= i < |u| :: NotNumeral(u[i])
    ensures Keep(IsNumeral, num + u) == num && Keep(NotNumeral, num + u) == u
  {
    hide Keep;
    KeepConcat(IsNumeral, num, u);
    KeepConcat(NotNumeral, num, u);
    KeepNone(IsNumeral, u);
    KeepAll(NotNumeral, u);
  }

  lemma {:induction false} LowerNumerals(num: string)
    requires forall i | 0 <= i < |num| :: IsNumeral(num[i])
    ensures LowerAll(num) == num
  {
  }

  lemma {:induction false} NotAnIntWithDot(t: string)
    requires '.' in t
    ensures ParseInt(t) == None
  {
    hide ParseInt;
    if ParseInt(t).Some? {
      IntHasNoDot(t);
    }
  }

  /** What the scanner makes of a stripped number with a dot and a unit. */
  lemma {:induction false} DottedIs(num: string, u: string)
    requires Keep(IsNumeral, num) == num && Keep(NotNumeral, num) == [] && '.' in num
    requires forall i | 0 <= i < |u| :: !IsSpace(u[i]) && NotNumeral(LowerAll(u)[i])
    ensures Scanned(num + u) == Scale(num, ScannerUnit(LowerAll(u)))
  {
    assert |LowerAll(u)| == |u|;
    hide Keep, Strip, LowerAll, ScannerUnit, Scale, ParseInt;
    NoSpacesNoStrip(num + u);
    LowerAllConcat(num, u);
    LowerNumerals(num);
    NotAnIntWithDot(num + LowerAll(u));
    SeparatedAre(num, LowerAll(u));
  }

  /** "1.5Gi", ".5M", "2.": the exact decimal times the unit, cut off; an error to the grammar. */
  lemma {:induction false} DecimalIs(a: string, b: string, u: string)
    requires AllDigits(a) && AllDigits(b) && a + b != []
    requires forall i | 0 <= i < |u| :: !IsSpace(u[i]) && NotNumeral(LowerAll(u)[i])
    ensures Scanned(a + ['.'] + b + u) == Success(Number(a + b) * ScannerUnit(LowerAll(u)) / Pow10(|b|))
    ensures ParseGrammar(a + ['.'] + b + u).Failure?
  {
    hide Keep, Number, LowerAll, ScannerUnit, Scale, ParseGrammar, Scanned, Pow10;
    var num := a + ['.'] + b;
    assert num[|a|] == '.';
    DottedDigits(a, b, num);
    DottedIs(num, u);
    DecimalScale(a, b, ScannerUnit(LowerAll(u)));
    DottedIsNoQuantity(num + u);
  }

  /** No quantity holds a dot. */
  lemma {:induction false} DottedIsNoQuantity(s: string)
    requires '.' in s
    ensures ParseGrammar(s).Failure?
  {
    hide ParseGrammar, Strip, Keep, Number, GrammarUnit, LowerAll;
    if ParseGrammar(s).Success? {
      var d, w, u := Parts(s);
      UnitLetters(u);
      KeepStripped(IsDot, s);
      KeepLowered(IsDot, Strip(s));
      KeepThree(IsDot, d, w, u);
      KeepNone(IsDot, d);
      KeepNone(IsDot, w);
      KeepNone(IsDot, u);
      DotsKept(s);
    }
  }
}
