/**
 Two parsers of memory quantities such as "64Mi": the grammar of utils/containerd/adapters.py and the character
 scanner of server/api_models.py, on ASCII strings and with exact arithmetic.
 */
module MemoryQuantities {
  import opened Wrappers

  datatype ValueError = ValueError

  // ---------- characters and digits ----------

  predicate IsDigit(c: char) { '0' <= c <= '9' }

  /** ASCII white space as Python sees it. */
  predicate IsSpace(c: char) { '\t' <= c <= '\r' || c == ' ' || '\U{1C}' <= c <= '\U{1F}' }

  function Lower(c: char): char {
    if 'A' <= c <= 'Z' then (c as int + 32) as char else c
  }

  function LowerAll(s: string): string {
    seq(|s|, i requires 0 <= i < |s| => Lower(s[i]))
  }

  predicate AllDigits(s: string) { forall i | 0 <= i < |s| :: IsDigit(s[i]) }

  predicate NoDigits(s: string) { forall i | 0 <= i < |s| :: !IsDigit(s[i]) }

  predicate AllSpaces(s: string) { forall i | 0 <= i < |s| :: IsSpace(s[i]) }

  function StripLeft(s: string): string {
    if s != [] && IsSpace(s[0]) then StripLeft(s[1..]) else s
  }

  function StripRight(s: string): string {
    if s != [] && IsSpace(s[|s| - 1]) then StripRight(s[..|s| - 1]) else s
  }

  /** `s.strip()` */
  function Strip(s: string): string { StripRight(StripLeft(s)) }

  function DigitValue(c: char): nat
    requires IsDigit(c)
  {
    c as int - '0' as int
  }

  /** The number a digit string stands for. */
  function Number(s: string): nat
    requires AllDigits(s)
  {
    if s == [] then 0 else 10 * Number(s[..|s| - 1]) + DigitValue(s[|s| - 1])
  }

  /** How many leading characters are digits. */
  function DigitsIn(s: string): (n: nat)
    ensures n <= |s| && AllDigits(s[..n]) && (n < |s| ==> !IsDigit(s[n]))
  {
    if s == [] || !IsDigit(s[0]) then 0
    else
      var n := DigitsIn(s[1..]);
      assert s[1..][..n] == s[1..n + 1];
      n + 1
  }

  // ---------- adapters.py: the grammar ----------

  /** The units of the grammar, in lower case, with their multipliers. */
  function GrammarUnit(u: string): Option<nat> {
    if u == "" then Some(1)
    else if u == "k" || u == "kb" then Some(1000)
    else if u == "ki" then Some(1024)
    else if u == "m" || u == "mb" then Some(1000 * 1000)
    else if u == "mi" then Some(1024 * 1024)
    else if u == "g" || u == "gb" then Some(1000 * 1000 * 1000)
    else if u == "gi" then Some(1024 * 1024 * 1024)
    else None
  }

  /** `parse_mem_bytes`: digits, optional white space, optional unit in any case. */
  function ParseGrammar(s: string): Result<nat, ValueError> {
    var t := Strip(s);
    var n := DigitsIn(t);
    var unit := GrammarUnit(LowerAll(StripLeft(t[n..])));
    if n == 0 || unit == None then Failure(ValueError.ValueError)
    else Success(Number(t[..n]) * unit.value)
  }

  // ---------- api_models.py: the scanner ----------

  function ScannerUnit(u: string): nat {
    if u == "k" || u == "kb" then 1000
    else if u == "m" || u == "mb" then 1000 * 1000
    else if u == "g" || u == "gb" then 1000 * 1000 * 1000
    else if u == "ki" || u == "kib" then 1024
    else if u == "mi" || u == "mib" then 1024 * 1024
    else if u == "gi" || u == "gib" then 1024 * 1024 * 1024
    else 1
  }

  /** Digits with single underscores between them. */
  predicate IsIntBody(s: string) {
    && s != [] && IsDigit(s[0]) && IsDigit(s[|s| - 1])
    && (forall i | 0 <= i < |s| :: IsDigit(s[i]) || s[i] == '_')
    && (forall i, j | 0 <= i < |s| - 1 && j == i + 1 :: s[i] == '_' ==> s[j] != '_')
  }

  function Keep(p: char -> bool, s: string): (r: string)
    ensures forall i | 0 <= i < |r| :: p(r[i])
  {
    if s == [] then [] else Keep(p, s[..|s| - 1]) + if p(s[|s| - 1]) then [s[|s| - 1]] else []
  }

  /** `int(s)` on a stripped string. */
  function ParseInt(s: string): Option<int> {
    var negative := s != [] && s[0] == '-';
    var body := if s != [] && (s[0] == '-' || s[0] == '+') then s[1..] else s;
    if !IsIntBody(body) then None
    else
      var digits := Keep(IsDigit, body);
      var magnitude: int := Number(digits);
      Some(if negative then -magnitude else magnitude)
  }

  predicate IsNumeral(c: char) { IsDigit(c) || c == '.' }

  predicate NotNumeral(c: char) { !IsNumeral(c) }

  predicate IsDot(c: char) { c == '.' }

  function Pow10(k: nat): (p: nat)
    ensures p > 0
  {
    if k == 0 then 1 else 10 * Pow10(k - 1)
  }

  /** How many characters follow the dot, if there is one. */
  function Decimals(s: string): nat {
    if s == [] || s[|s| - 1] == '.' then 0
    else if '.' in s then Decimals(s[..|s| - 1]) + 1 else 0
  }

  /** `int(float(num or "0") * mul)` for a string of digits and dots: an exact decimal, truncated. */
  function Scale(num: string, mul: nat): Result<int, ValueError>
    requires forall i | 0 <= i < |num| :: IsNumeral(num[i])
  {
    var digits := Keep(IsDigit, num);
    if num == [] then Success(0)
    else if digits == [] || |Keep(IsDot, num)| > 1 then Failure(ValueError.ValueError)
    else Success(Number(digits) * mul / Pow10(Decimals(num)))
  }

  /** What the scanner returns for a string. */
  function Scanned(s: string): Result<int, ValueError> {
    var t := LowerAll(Strip(s));
    var whole := ParseInt(t);
    if whole.Some? then Success(whole.value)
    else Scale(Keep(IsNumeral, t), ScannerUnit(Keep(NotNumeral, t)))
  }

  /** `_parse_mem_bytes` on a string. */
  method ParseScanner(s: string) returns (r: Result<int, ValueError>)
    ensures r == Scanned(s)
  {
    var t := LowerAll(Strip(s));
    var whole := ParseInt(t);
    if whole.Some? {
      return Success(whole.value);
    }
    var num, unit := "", "";
    for i := 0 to |t|
      invariant num == Keep(IsNumeral, t[..i]) && unit == Keep(NotNumeral, t[..i])
    {
      assert t[..i + 1][..i] == t[..i];
      if IsDigit(t[i]) || t[i] == '.' {
        num := num + [t[i]];
      } else {
        unit := unit + [t[i]];
      }
    }
    assert t[..|t|] == t;
    r := Scale(num, ScannerUnit(unit));
  }

  // ---------- helpers ----------

  lemma {:induction false} KeepConcat(p: char -> bool, s: string, t: string)
    ensures Keep(p, s + t) == Keep(p, s) + Keep(p, t)
  {
    if t == [] {
      assert s + t == s;
    } else {
      assert (s + t)[..|s + t| - 1] == s + t[..|t| - 1];
      KeepConcat(p, s, t[..|t| - 1]);
    }
  }

  lemma {:induction false} KeepAll(p: char -> bool, s: string)
    requires forall i | 0 <= i < |s| :: p(s[i])
    ensures Keep(p, s) == s
  {
    if s != [] {
      var front := s[..|s| - 1];
      KeepAll(p, front);
      assert s == front + [s[|s| - 1]];
    }
  }

  lemma {:induction false} KeepNone(p: char -> bool, s: string)
    requires forall i | 0 <= i < |s| :: !p(s[i])
    ensures Keep(p, s) == []
  {
    if s != [] {
      KeepNone(p, s[..|s| - 1]);
    }
  }

  lemma {:induction false} KeepAllOrNone(p: char -> bool, s: string)
    ensures (forall i | 0 <= i < |s| :: p(s[i])) ==> Keep(p, s) == s
    ensures (forall i | 0 <= i < |s| :: !p(s[i])) ==> Keep(p, s) == []
  {
    hide Keep;
    if forall i | 0 <= i < |s| :: p(s[i]) {
      KeepAll(p, s);
    }
    if forall i | 0 <= i < |s| :: !p(s[i]) {
      KeepNone(p, s);
    }
  }

  lemma {:induction false} StripRightEnds(s: string)
    ensures StripRight(s) == [] || !IsSpace(StripRight(s)[|StripRight(s)| - 1])
  {
    if s != [] && IsSpace(s[|s| - 1]) {
      StripRightEnds(s[..|s| - 1]);
    }
  }

  /** What strip removes on the left is white space. */
  lemma {:induction false} StripLeftSplits(s: string) returns (k: nat)
    ensures k <= |s| && AllSpaces(s[..k]) && StripLeft(s) == s[k..]
    ensures s != [] && !IsSpace(s[0]) ==> k == 0
    ensures k < |s| ==> !IsSpace(s[k])
  {
    k := 0;
    if s != [] && IsSpace(s[0]) {
      var j := StripLeftSplits(s[1..]);
      k := j + 1;
      assert s[..k] == [s[0]] + s[1..][..j];
    }
  }

  /** The letters of a unit are neither digits, dots, underscores nor spaces. */
  lemma {:induction false} UnitLetters(u: string)
    requires GrammarUnit(LowerAll(u)).Some?
    ensures |u| <= 2 && forall i | 0 <= i < |u| :: NotNumeral(u[i]) && !IsSpace(u[i]) && u[i] != '_'
    ensures u != "" ==> ScannerUnit(LowerAll(u)) == GrammarUnit(LowerAll(u)).value > 1
  {
    forall i | 0 <= i < |u| ensures NotNumeral(u[i]) && !IsSpace(u[i]) && u[i] != '_' {
      assert LowerAll(u)[i] == Lower(u[i]);
      assert Lower(u[i]) in {'k', 'm', 'g', 'i', 'b'};
    }
  }

  lemma {:induction false} LowerAllConcat(s: string, t: string)
    ensures LowerAll(s + t) == LowerAll(s) + LowerAll(t)
  {
  }

  lemma {:induction false} LowerFixes(s: string)
    requires forall i | 0 <= i < |s| :: IsDigit(s[i]) || IsSpace(s[i])
    ensures LowerAll(s) == s
  {
  }

  // ---------- what the scanner makes of digits, white space and a unit ----------

  lemma {:induction false} ScannedDigits(d: string)
    requires d != [] && AllDigits(d)
    ensures ParseInt(d) == Some(Number(d))
  {
    hide Keep, Number;
    KeepAllOrNone(IsDigit, d);
  }

  lemma {:induction false} ScaleDigits(d: string, mul: nat)
    requires d != [] && AllDigits(d)
    ensures Scale(d, mul) == Success(Number(d) * mul)
  {
    KeepAllOrNone(IsDigit, d);
    KeepAllOrNone(IsDot, d);
    assert '.' !in d;
    assert Decimals(d) == 0 && Pow10(0) == 1;
  }

  lemma {:induction false} KeepThree(p: char -> bool, s: string, t: string, u: string)
    ensures Keep(p, s + t + u) == Keep(p, s) + Keep(p, t) + Keep(p, u)
  {
    KeepConcat(p, s + t, u);
    KeepConcat(p, s, t);
  }

  lemma {:induction false} NotAnInt(t: string)
    requires t != [] && IsDigit(t[0]) && !IsDigit(t[|t| - 1])
    ensures ParseInt(t) == None
  {
  }

  /** d digits, w white space, u a unit in lower case: the scanner separates the digits from everything else. */
  lemma {:induction false} ScannedParts(d: string, w: string, u: string)
    requires d != [] && AllDigits(d) && AllSpaces(w)
    requires u != "" && forall i | 0 <= i < |u| :: NotNumeral(u[i])
    ensures ParseInt(d + w + u) == None
    ensures Keep(IsNumeral, d + w + u) == d && Keep(NotNumeral, d + w + u) == w + u
  {
    hide Keep, ParseInt;
    var t := d + w + u;
    assert t[0] == d[0] && t[|t| - 1] == u[|u| - 1];
    NotAnInt(t);
    KeepThree(IsNumeral, d, w, u);
    KeepThree(NotNumeral, d, w, u);
    KeepAllOrNone(IsNumeral, d);
    KeepAllOrNone(IsNumeral, w);
    KeepAllOrNone(IsNumeral, u);
    KeepAllOrNone(NotNumeral, d);
    KeepAllOrNone(NotNumeral, w);
    KeepAllOrNone(NotNumeral, u);
  }

  /** What the scanner returns for a stripped d + w + u: the number times what it makes of everything after it. */
  lemma {:induction false} ScannedAs(s: string, d: string, w: string, u: string)
    requires Strip(s) == d + w + u && d != [] && AllDigits(d) && AllSpaces(w)
    requires u != "" && forall i | 0 <= i < |u| :: NotNumeral(LowerAll(u)[i])
    ensures Scanned(s) == Success(Number(d) * ScannerUnit(w + LowerAll(u)))
  {
    hide Keep, ParseInt, Strip, Scale, ScannerUnit, Number;
    LowerAllConcat(d + w, u);
    LowerFixes(d + w);
    ScannedParts(d, w, LowerAll(u));
    ScaleDigits(d, ScannerUnit(w + LowerAll(u)));
  }

  lemma {:induction false} NothingBetween(s: string, t: string)
    ensures s + [] + t == s + t && [] + t == t
  {
    assert s + [] == s;
  }

  /** The same without white space. */
  lemma {:induction false} ScannedDirect(s: string, d: string, u: string)
    requires Strip(s) == d + u && d != [] && AllDigits(d)
    requires u != "" && forall i | 0 <= i < |u| :: NotNumeral(LowerAll(u)[i])
    ensures Scanned(s) == Success(Number(d) * ScannerUnit(LowerAll(u)))
  {
    hide Strip, Scanned, ScannerUnit, Number, LowerAll;
    NothingBetween(d, u);
    NothingBetween(d, LowerAll(u));
    ScannedAs(s, d, [], u);
  }

  /** In particular for a unit of the grammar, in any case. */
  lemma {:induction false} ScannedValue(s: string, d: string, w: string, u: string)
    requires Strip(s) == d + w + u
    requires d != [] && AllDigits(d) && AllSpaces(w) && u != "" && GrammarUnit(LowerAll(u)).Some?
    ensures Scanned(s)
      == Success(if w == [] then Number(d) * GrammarUnit(LowerAll(u)).value else Number(d))
  {
    hide Strip, Scanned, Number;
    var lower := LowerAll(u);
    UnitLetters(u);
    UnitIsLowered(u);
    ScannedAs(s, d, w, u);
    if w == [] {
      assert w + lower == lower;
    } else {
      SpacedUnitIsUnknown(w, lower);
    }
  }

  /** White space before a unit makes the scanner forget the unit. */
  lemma {:induction false} SpacedUnitIsUnknown(w: string, u: string)
    requires w != [] && AllSpaces(w)
    ensures ScannerUnit(w + u) == 1
  {
    assert IsSpace((w + u)[0]);
  }

  lemma {:induction false} TimesOne(n: nat, mul: nat)
    requires mul > 1
    ensures n * mul == n <==> n == 0
    ensures n * mul == 0 <==> n == 0
  {
    if n > 0 {
      assert n * mul >= n * 2;
    }
  }

  // ---------- agreement ----------

  /** White space separates the number from its unit. */
  predicate Spaced(s: string) {
    var t := Strip(s);
    var n := DigitsIn(t);
    n < |t| && IsSpace(t[n])
  }

  /** A string the grammar accepts, taken apart. */
  lemma {:induction false} Parts(s: string) returns (d: string, w: string, u: string)
    requires ParseGrammar(s).Success?
    ensures Strip(s) == d + w + u && d != [] && AllDigits(d) && AllSpaces(w)
    ensures GrammarUnit(LowerAll(u)).Some?
    ensures ParseGrammar(s) == Success(Number(d) * GrammarUnit(LowerAll(u)).value)
    ensures Spaced(s) <==> w != []
    ensures u == "" ==> w == []
  {
    hide Number, GrammarUnit, LowerAll, StripLeft, StripRight;
    var t := Strip(s);
    StripRightEnds(StripLeft(s));
    var n := DigitsIn(t);
    d := t[..n];
    var k := StripLeftSplits(t[n..]);
    w, u := t[n..][..k], t[n..][k..];
    assert t == d + t[n..] && t[n..] == w + u;
    assert w != [] ==> t[n] == w[0] && IsSpace(w[0]);
  }

  /** On what the grammar accepts the scanner returns a number too, the same one unless white space hides the unit. */
  lemma {:induction false} SameNumberExactlyWhen(s: string)
    requires ParseGrammar(s).Success?
    ensures Scanned(s).Success?
    ensures Scanned(s).value == ParseGrammar(s).value <==> !Spaced(s) || ParseGrammar(s).value == 0
  {
    hide ParseGrammar, Strip, Spaced, GrammarUnit, Keep;
    var d, w, u := Parts(s);
    if u == "" {
      assert Strip(s) == d;
      LowerFixes(d);
      ScannedDigits(d);
      UnitOne(u);
    } else {
      ScannedValue(s, d, w, u);
      UnitLetters(u);
      TimesOne(Number(d), GrammarUnit(LowerAll(u)).value);
    }
  }

  // ---------- which strings each parser takes ----------

  /** Digits, optional white space and an optional unit, with white space around the whole. */
  ghost predicate IsQuantity(s: string) {
    exists d: string, w: string, u: string :: Split(s, d, w, u)
  }

  predicate Split(s: string, d: string, w: string, u: string) {
    Strip(s) == d + w + u && d != [] && AllDigits(d) && AllSpaces(w) && GrammarUnit(LowerAll(u)).Some?
  }

  /** A dot without any digit, or more than one dot. */
  predicate BadDots(s: string) {
    '.' in s && (NoDigits(s) || multiset(s)['.'] > 1)
  }

  predicate OnlyZeros(s: string) {
    forall c | c in s && IsDigit(c) :: c == '0'
  }

  lemma {:induction false} StripLeftSpaces(w: string, u: string)
    requires AllSpaces(w) && (u != "" ==> !IsSpace(u[0]))
    ensures StripLeft(w + u) == u
  {
    if w == [] {
      assert w + u == u;
    } else {
      assert (w + u)[1..] == w[1..] + u;
      StripLeftSpaces(w[1..], u);
    }
  }

  lemma {:induction false} QuantityParses(s: string, d: string, w: string, u: string)
    requires Split(s, d, w, u)
    ensures ParseGrammar(s).Success?
  {
    UnitLetters(u);
    hide Strip, StripLeft, GrammarUnit, LowerAll, Number, DigitsIn;
    var t := Strip(s);
    assert t == d + (w + u) && t[..|d|] == d && t[|d|..] == w + u;
    assert w + u != "" ==> !IsDigit((w + u)[0]);
    DigitsThenOther(d, w + u);
    StripLeftSpaces(w, u);
  }

  /** The grammar takes exactly the quantities. */
  lemma {:induction false} GrammarTakes(s: string)
    ensures ParseGrammar(s).Success? <==> IsQuantity(s)
  {
    hide ParseGrammar, Strip, GrammarUnit, LowerAll;
    if ParseGrammar(s).Success? {
      var d, w, u := Parts(s);
      assert Split(s, d, w, u);
    }
    if IsQuantity(s) {
      var d: string, w: string, u: string :| Split(s, d, w, u);
      QuantityParses(s, d, w, u);
    }
  }

  lemma {:induction false} StripRightSplits(s: string) returns (k: nat)
    ensures k <= |s| && StripRight(s) == s[..k] && AllSpaces(s[k..])
  {
    k := |s|;
    if s != [] && IsSpace(s[|s| - 1]) {
      k := StripRightSplits(s[..|s| - 1]);
      assert s[k..] == s[..|s| - 1][k..] + [s[|s| - 1]];
    }
  }

  lemma {:induction false} KeepLowered(p: char -> bool, s: string)
    requires forall c :: p(Lower(c)) == p(c) && (p(c) ==> Lower(c) == c)
    ensures Keep(p, LowerAll(s)) == Keep(p, s)
  {
    if s != [] {
      KeepLowered(p, s[..|s| - 1]);
      assert LowerAll(s)[..|s| - 1] == LowerAll(s[..|s| - 1]);
    }
  }

  /** Neither stripping nor lowering touches digits and dots. */
  lemma {:induction false} KeepStripped(p: char -> bool, s: string)
    requires forall c :: p(Lower(c)) == p(c) && (p(c) ==> Lower(c) == c)
    requires forall c | IsSpace(c) :: !p(c)
    ensures Keep(p, LowerAll(Strip(s))) == Keep(p, s)
  {
    var i := StripLeftSplits(s);
    var t := s[i..];
    var j := StripRightSplits(t);
    assert s == s[..i] + t[..j] + t[j..];
    KeepThree(p, s[..i], t[..j], t[j..]);
    KeepAllOrNone(p, s[..i]);
    KeepAllOrNone(p, t[j..]);
    KeepLowered(p, Strip(s));
  }

  lemma {:induction false} KeepAgain(p: char -> bool, q: char -> bool, s: string)
    requires forall c | p(c) :: q(c)
    ensures Keep(p, Keep(q, s)) == Keep(p, s)
  {
    if s != [] {
      var front, last := s[..|s| - 1], [s[|s| - 1]];
      KeepAgain(p, q, front);
      KeepConcat(p, Keep(q, front), if q(last[0]) then last else []);
      assert last[..0] == [];
    }
  }

  lemma {:induction false} KeepMembers(p: char -> bool, s: string, c: char)
    ensures c in Keep(p, s) <==> c in s && p(c)
  {
    if s != [] {
      KeepMembers(p, s[..|s| - 1], c);
      assert s == s[..|s| - 1] + [s[|s| - 1]];
    }
  }

  lemma {:induction false} DotCount(s: string)
    ensures |Keep(IsDot, s)| == multiset(s)['.']
  {
    if s != [] {
      DotCount(s[..|s| - 1]);
      assert s == s[..|s| - 1] + [s[|s| - 1]];
    }
  }

  /** An integer literal has a digit and no dot. */
  lemma {:induction false} IntHasNoDot(t: string)
    requires ParseInt(t).Some?
    ensures '.' !in t && Keep(IsDigit, t) != []
  {
    hide Keep, Number;
    var signed := t != [] && (t[0] == '-' || t[0] == '+');
    var body := if signed then t[1..] else t;
    assert IsIntBody(body) && body[0] in t;
    KeepMembers(IsDigit, t, body[0]);
    forall i | 0 <= i < |t| ensures t[i] != '.' {
      assert !signed || i > 0 ==> t[i] == body[if signed then i - 1 else i];
    }
  }

  /** The scanner refuses exactly the strings with bad dots. */
  lemma {:induction false} ScannerRefuses(s: string)
    ensures Scanned(s).Failure? <==> BadDots(s)
  {
    hide Strip, LowerAll, Keep, ParseInt, Number, Decimals;
    var t := LowerAll(Strip(s));
    KeepStripped(IsNumeral, s);
    KeepStripped(IsDigit, s);
    KeepStripped(IsDot, s);
    KeepAgain(IsDigit, IsNumeral, s);
    KeepAgain(IsDot, IsNumeral, s);
    DotCount(s);
    DigitsKept(s);
    DotsKept(s);
    DotsKept(t);
    if ParseInt(t).Some? {
      IntHasNoDot(t);
    }
    NumeralsKept(s);
  }

  lemma {:induction false} DigitsKept(s: string)
    ensures Keep(IsDigit, s) == [] <==> NoDigits(s)
  {
    KeepAllOrNone(IsDigit, s);
    forall i | 0 <= i < |s| && IsDigit(s[i]) ensures Keep(IsDigit, s) != [] {
      KeepMembers(IsDigit, s, s[i]);
    }
  }

  lemma {:induction false} DotsKept(s: string)
    ensures Keep(IsDot, s) == [] <==> '.' !in s
  {
    KeepAllOrNone(IsDot, s);
    KeepMembers(IsDot, s, '.');
  }

  lemma {:induction false} NumeralsKept(s: string)
    ensures Keep(IsNumeral, s) == [] <==> NoDigits(s) && '.' !in s
  {
    KeepAllOrNone(IsNumeral, s);
    forall i | 0 <= i < |s| && IsNumeral(s[i]) ensures Keep(IsNumeral, s) != [] {
      KeepMembers(IsNumeral, s, s[i]);
    }
    assert '.' in s ==> exists i :: 0 <= i < |s| && IsNumeral(s[i]);
  }

  // ---------- agreement on every string ----------

  /** Both raise, or both return the same number. */
  predicate SameResult(s: string) {
    match (ParseGrammar(s), Scanned(s))
    case (Failure(_), Failure(_)) => true
    case (Success(m), Success(n)) => m == n
    case _ => false
  }

  lemma {:induction false} NumberIsZero(d: string)
    requires AllDigits(d)
    ensures Number(d) == 0 <==> forall i | 0 <= i < |d| :: d[i] == '0'
  {
    if d != [] {
      NumberIsZero(d[..|d| - 1]);
    }
  }

  /** The digits of a quantity are its number. */
  lemma {:induction false} ZeroExactlyWhen(s: string)
    requires ParseGrammar(s).Success?
    ensures ParseGrammar(s).value == 0 <==> OnlyZeros(s)
  {
    hide ParseGrammar, Strip, Spaced, GrammarUnit, Keep, Number, LowerAll;
    var d, w, u := Parts(s);
    UnitLetters(u);
    KeepStripped(IsDigit, s);
    KeepLowered(IsDigit, Strip(s));
    KeepThree(IsDigit, d, w, u);
    KeepAllOrNone(IsDigit, d);
    KeepAllOrNone(IsDigit, w);
    KeepAllOrNone(IsDigit, u);
    forall c: char ensures c in d <==> c in s && IsDigit(c) {
      KeepMembers(IsDigit, s, c);
    }
    NumberIsZero(d);
    if u == "" {
      UnitOne(u);
    } else {
      TimesOne(Number(d), GrammarUnit(LowerAll(u)).value);
    }
  }

  /**
   On every string: both parsers return the same number for a quantity whose unit is not hidden by white space or
   whose digits are all zero, both raise on bad dots, and they disagree on everything else.
   */
  lemma {:induction false} ParsersAgreeExactlyWhen(s: string)
    ensures SameResult(s) <==> (IsQuantity(s) && (!Spaced(s) || OnlyZeros(s))) || BadDots(s)
  {
    hide ParseGrammar, Scanned, IsQuantity, Spaced, OnlyZeros, BadDots;
    GrammarTakes(s);
    ScannerRefuses(s);
    if IsQuantity(s) {
      SameNumberExactlyWhen(s);
      ZeroExactlyWhen(s);
    }
  }

  /** A unit, in lower case, that only the scanner knows. */
  predicate ScannerOnly(unit: string) {
    ScannerUnit(unit) > 1 && GrammarUnit(unit) == None
  }

  lemma {:induction false} ScannerOnlyLetters(u: string)
    requires ScannerOnly(LowerAll(u))
    ensures u != "" && forall i | 0 <= i < |u| :: NotNumeral(u[i]) && !IsSpace(u[i]) && NotNumeral(LowerAll(u)[i])
  {
    forall i | 0 <= i < |u| ensures NotNumeral(u[i]) && !IsSpace(u[i]) && NotNumeral(LowerAll(u)[i]) {
      assert LowerAll(u)[i] == Lower(u[i]) && Lower(u[i]) in {'k', 'm', 'g', 'i', 'b'};
    }
  }

  lemma {:induction false} GrammarRefuses(d: string, u: string)
    requires AllDigits(d) && GrammarUnit(LowerAll(u)) == None
    requires u != "" && forall i | 0 <= i < |u| :: NotNumeral(u[i]) && !IsSpace(u[i])
    ensures ParseGrammar(d + u) == Failure(ValueError.ValueError) && Strip(d + u) == d + u
  {
    NoSpacesNoStrip(d + u);
    hide Number, Strip, DigitsIn, LowerAll, GrammarUnit;
    DigitsThenOther(d, u);
    assert (d + u)[..|d|] == d && (d + u)[|d|..] == u && StripLeft(u) == u;
  }

  /** Such a unit directly after the digits: a scaled number to the scanner and an error to the grammar. */
  lemma {:induction false} ScannerOnlyUnits(d: string, u: string)
    requires d != [] && AllDigits(d) && ScannerOnly(LowerAll(u))
    ensures ParseGrammar(d + u) == Failure(ValueError.ValueError)
    ensures Scanned(d + u) == Success(Number(d) * ScannerUnit(LowerAll(u)))
  {
    ScannerOnlyLetters(u);
    GrammarRefuses(d, u);
    hide Number, Strip, LowerAll, ScannerUnit, ParseGrammar, Scanned, ScannerOnly;
    ScannedDirect(d + u, d, u);
  }

  /** "64MiB" is such a string. */
  lemma {:induction false} MebibytesAreScannerOnly(n: nat)
    ensures ParseGrammar(Print(n) + "MiB") == Failure(ValueError.ValueError)
    ensures Scanned(Print(n) + "MiB") == Success(n * (1024 * 1024))
  {
    assert LowerAll("MiB") == "mib";
    hide Keep, ParseInt, Scale, Number, Strip, LowerAll, ParseGrammar, Scanned;
    ScannerOnlyUnits(Print(n), "MiB");
  }

  lemma {:induction false} UnitOne(u: string)
    requires u == ""
    ensures GrammarUnit(LowerAll(u)) == Some(1)
  {
  }

  lemma {:induction false} UnitIsLowered(u: string)
    requires GrammarUnit(LowerAll(u)).Some?
    ensures forall i | 0 <= i < |u| :: NotNumeral(LowerAll(u)[i])
  {
    forall i | 0 <= i < |u| ensures NotNumeral(LowerAll(u)[i]) {
      assert LowerAll(u)[i] in {'k', 'm', 'g', 'i', 'b'};
    }
  }

  // ---------- quantities as they are written ----------

  lemma {:induction false} NoSpacesNoStrip(s: string)
    requires forall i | 0 <= i < |s| :: !IsSpace(s[i])
    ensures Strip(s) == s
  {
  }

  lemma {:induction false} DigitsThenOther(d: string, u: string)
    requires AllDigits(d) && (u != "" ==> !IsDigit(u[0]))
    ensures DigitsIn(d + u) == |d|
  {
    if d == [] {
      assert d + u == u;
    } else {
      assert (d + u)[1..] == d[1..] + u;
      DigitsThenOther(d[1..], u);
    }
  }

  /** A digit string followed directly by a unit, in any case, is number times multiplier to both parsers. */
  lemma {:induction false} BothParsersOnQuantity(d: string, u: string)
    requires d != [] && AllDigits(d) && GrammarUnit(LowerAll(u)).Some?
    ensures ParseGrammar(d + u) == Success(Number(d) * GrammarUnit(LowerAll(u)).value)
    ensures Scanned(d + u) == Success(Number(d) * GrammarUnit(LowerAll(u)).value)
  {
    UnitLetters(u);
    NoSpacesNoStrip(d + u);
    DigitsThenOther(d, u);
    assert (d + u)[..|d|] == d && (d + u)[|d|..] == u;
    assert StripLeft(u) == u;
    assert !Spaced(d + u);
    SameNumberExactlyWhen(d + u);
  }

  /** `str(n)` */
  function Print(n: nat): (s: string)
    ensures s != [] && AllDigits(s) && Number(s) == n
  {
    var digit := ['0' + (n % 10) as char];
    if n < 10 then
      digit
    else
      assert (Print(n / 10) + digit)[..|Print(n / 10)|] == Print(n / 10);
      Print(n / 10) + digit
  }

  /** Printing a number with a unit and parsing it gives the number back, scaled. */
  lemma {:induction false} PrintThenParse(n: nat, u: string)
    requires GrammarUnit(LowerAll(u)).Some?
    ensures ParseGrammar(Print(n) + u) == Success(n * GrammarUnit(LowerAll(u)).value)
    ensures Scanned(Print(n) + u) == Success(n * GrammarUnit(LowerAll(u)).value)
  {
    BothParsersOnQuantity(Print(n), u);
  }

  lemma {:induction false} SpacedShape(d: string)
    requires d != [] && AllDigits(d)
    ensures Strip(d + " Mi") == d + " Mi" == d + " " + "Mi"
    ensures StripLeft(" Mi") == "Mi" && GrammarUnit(LowerAll("Mi")) == Some(1024 * 1024)
  {
    var s := d + " Mi";
    assert s[0] == d[0] && s[|s| - 1] == 'i';
    assert StripLeft(s) == s && StripRight(s) == s;
    assert " Mi"[1..] == "Mi" && StripLeft(" Mi") == StripLeft("Mi") == "Mi";
    assert LowerAll("Mi") == "mi";
  }

  /** "64 Mi": 64 MiB to the grammar, 64 bytes to the scanner. */
  lemma {:induction false} SpacedQuantity(n: nat)
    ensures ParseGrammar(Print(n) + " Mi") == Success(n * (1024 * 1024))
    ensures Scanned(Print(n) + " Mi") == Success(n)
  {
    hide Print, Number, Strip, StripLeft, Scanned, DigitsIn, GrammarUnit, LowerAll;
    var d := Print(n);
    var s := d + " Mi";
    SpacedShape(d);
    DigitsThenOther(d, " Mi");
    assert s[..|d|] == d && s[|d|..] == " Mi";
    ScannedValue(s, d, " ", "Mi");
  }
}
