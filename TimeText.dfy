/** The text codec of `Time`: `Time.parse`, which scans a string for
    number/unit pairs, and the decomposition `Time.toString` prints. */
module TimeText {
  import opened JavaLang
  import opened TimeUnits

  // ---------------------------------------------------------------------------
  // The pattern ([0-9\s]*[0-9](?:[,.][0-9\s]*[0-9])?)\s*([a-zA-Z]+)

  predicate IsNumChar(c: char) { IsDigit(c) || IsSpace(c) }
  predicate IsSeparator(c: char) { c == ',' || c == '.' }

  /** Length of the longest prefix of `t` made of digits and white space. */
  function RunLen(t: string): (n: nat)
    ensures n <= |t|
    ensures forall i :: 0 <= i < n ==> IsNumChar(t[i])
    ensures n < |t| ==> !IsNumChar(t[n])
  {
    if t == [] || !IsNumChar(t[0]) then 0 else 1 + RunLen(t[1..])
  }

  /** Length of the longest prefix of `t` made of ASCII letters. */
  function LetterLen(t: string): (n: nat)
    ensures n <= |t|
    ensures forall i :: 0 <= i < n ==> IsLetter(t[i])
    ensures n < |t| ==> !IsLetter(t[n])
  {
    if t == [] || !IsLetter(t[0]) then 0 else 1 + LetterLen(t[1..])
  }

  /** Position of the last digit among the first `n` characters of `t`. */
  function LastDigit(t: string, n: nat): (k: Option<nat>)
    requires n <= |t|
    ensures k.Some? ==> k.value < n && IsDigit(t[k.value])
    ensures k.Some? ==> forall j :: k.value < j < n ==> !IsDigit(t[j])
    ensures k.None? ==> forall j :: 0 <= j < n ==> !IsDigit(t[j])
  {
    if n == 0 then None else if IsDigit(t[n - 1]) then Some(n - 1) else LastDigit(t, n - 1)
  }

  /** A match of the pattern at the start of a text: group 1 is `t[..numEnd]`,
      group 2 is `t[wordStart..wordEnd]`, and the match ends at `wordEnd`. */
  datatype Token = Token(numEnd: nat, wordStart: nat, wordEnd: nat)

  /** A match of the pattern at the start of `t`. */
  predicate IsMatch(t: string, m: Token) {
    && 0 < m.numEnd <= m.wordStart < m.wordEnd <= |t|
    && IsDigit(t[m.numEnd - 1])
    && (forall i :: m.numEnd <= i < m.wordStart ==> IsSpace(t[i]))
    && (forall i :: m.wordStart <= i < m.wordEnd ==> IsLetter(t[i]))
    && (m.wordEnd == |t| || !IsLetter(t[m.wordEnd]))
  }

  /** Group 2 is the whole run of letters from `ws`. */
  function TokenAt(t: string, numEnd: nat, ws: nat): (m: Token)
    requires 0 < numEnd <= ws < |t| && IsDigit(t[numEnd - 1]) && IsLetter(t[ws])
    requires forall i :: numEnd <= i < ws ==> IsSpace(t[i])
    ensures IsMatch(t, m) && m.numEnd == numEnd && m.wordStart == ws
  {
    var n := LetterLen(t[ws..]);
    assert n > 0;
    var m := Token(numEnd, ws, ws + n);
    forall i | ws <= i < ws + n ensures IsLetter(t[i]) {
      assert t[i] == t[ws..][i - ws];
    }
    assert ws + n < |t| ==> t[ws + n] == t[ws..][n];
    m
  }

  /** The match the pattern makes at the start of `t`, if any. The greedy
      `[0-9\s]*[0-9]` can only end at the last digit of the leading run of
      digits and spaces, since only spaces may stand between group 1 and the
      letters; the fraction is taken when a separator follows that digit
      directly and its own run ends in a digit followed by spaces and a letter. */
  function MatchHere(t: string): (m: Option<Token>)
    ensures m.Some? ==> IsMatch(t, m.value)
  {
    var q := RunLen(t);
    match LastDigit(t, q)
    case None => None
    case Some(k) =>
      if k + 1 == q && q < |t| && IsSeparator(t[q]) then
        FractionMatch(t, q)
      else if q < |t| && IsLetter(t[q]) then
        assert forall i :: k + 1 <= i < q ==> IsSpace(t[i]);
        Some(TokenAt(t, k + 1, q))
      else None
  }

  /** The match when the separator at `q` directly follows the last digit. */
  function FractionMatch(t: string, q: nat): (m: Option<Token>)
    requires q < |t|
    ensures m.Some? ==> IsMatch(t, m.value)
  {
    var rest := t[q + 1..];
    var r := RunLen(rest);
    match LastDigit(rest, r)
    case None => None
    case Some(k2) =>
      var q2 := q + 1 + r;
      if q2 < |t| && IsLetter(t[q2]) then
        assert forall i :: k2 + 1 <= i < r ==> IsSpace(rest[i]);
        assert forall i :: q + 1 + k2 + 1 <= i < q2 ==> IsSpace(t[i]) by {
          forall i | q + 1 + k2 + 1 <= i < q2 ensures IsSpace(t[i]) {
            assert t[i] == rest[i - (q + 1)];
          }
        }
        assert t[q + 1 + k2] == rest[k2];
        Some(TokenAt(t, q + 1 + k2 + 1, q2))
      else None
  }

  /** Group 1 with `replaceAll("\\s", "")` and `replace(",", ".")` applied. */
  function NumberText(s: string): (r: string)
    ensures |r| <= |s|
    ensures forall i :: 0 <= i < |r| ==> !IsSpace(r[i]) && r[i] != ','
  {
    if s == [] then []
    else if IsSpace(s[0]) then NumberText(s[1..])
    else [if s[0] == ',' then '.' else s[0]] + NumberText(s[1..])
  }

  /** A numeral without white space or commas is left as it is. */
  lemma {:induction false} NumberTextUnchanged(s: string)
    requires forall i :: 0 <= i < |s| ==> !IsSpace(s[i]) && s[i] != ','
    ensures NumberText(s) == s
  {
    if s != [] {
      NumberTextUnchanged(s[1..]);
    }
  }

  // ---------------------------------------------------------------------------
  // Accumulating the pairs

  /** How the floating-point product is narrowed: `(int)` as written in
      `parse`, or `(long)` as in the `Time(double, Unit)` constructor. */
  datatype Cast = IntCast | LongCast

  /** Java's narrowing of a finite double (already truncated toward zero) to `int` or `long`. */
  function Narrow(c: Cast, x: int): (r: int)
    ensures c == IntCast ==> IsInt(r) && (IsInt(x) ==> r == x)
    ensures c == LongCast ==> IsLong(r) && (IsLong(x) ==> r == x)
  {
    match c
    case IntCast => if x < INT_MIN then INT_MIN else if x > INT_MAX then INT_MAX else x
    case LongCast => if x < LONG_MIN then LONG_MIN else if x > LONG_MAX then LONG_MAX else x
  }

  /** What one pair adds to the result. A numeral `Long.parseLong` accepts is
      multiplied by the scale in `long` arithmetic. Any other numeral — one with a
      fraction, or one too large for a `long` — goes through `Double.parseDouble`;
      `dbl(numstr, scale)` stands for the floating-point product truncated toward
      zero, which `cast` then narrows. */
  function Contribution(numstr: string, scale: int, dbl: (string, int) -> int, cast: Cast): int {
    match ParseLong(numstr)
    case Some(n) => WrapLong(n * scale)
    case None => Narrow(cast, dbl(numstr, scale))
  }

  /** A number/unit pair `find()` reports: group 1 and group 2 of one match. */
  datatype Pair = Pair(numeral: string, word: string)

  /** The pairs successive calls of `find()` report on `t`: the pattern is tried
      position by position, and the next search starts where a match ends. */
  function Pairs(t: string): seq<Pair>
    decreases |t|
  {
    if t == [] then []
    else
      match MatchHere(t)
      case None => Pairs(t[1..])
      case Some(m) => [Pair(t[..m.numEnd], t[m.wordStart..m.wordEnd])] + Pairs(t[m.wordEnd..])
  }

  /** Adding up the pairs in order, starting from `acc`, each with `long`
      wrap-around; the first word that names no unit throws. */
  function SumPairs(ps: seq<Pair>, acc: int, dbl: (string, int) -> int, cast: Cast): Result<int> {
    if ps == [] then Ok(acc)
    else
      match UnitNamed(ps[0].word)
      case None => Throws(IllegalArgument)
      case Some(u) =>
        SumPairs(ps[1..], WrapLong(acc + Contribution(NumberText(ps[0].numeral), Scale(u), dbl, cast)), dbl, cast)
  }

  /** `Time.parse(s)` with the given narrowing of the fractional branch. */
  function ParseWith(s: string, dbl: (string, int) -> int, cast: Cast): Result<int> {
    SumPairs(Pairs(s), 0, dbl, cast)
  }

  /** `Time.parse(s)`, with the narrowing of the fractional branch corrected to `(long)`. */
  function ParseText(s: string, dbl: (string, int) -> int): Result<int> {
    ParseWith(s, dbl, LongCast)
  }

  /** `Time.parse(s)`: repeatedly finds the next match, looks the unit up and adds
      the pair to the result, narrowing a fractional product with `(int)` as written. */
  method Parse(s: string, dbl: (string, int) -> int) returns (r: Result<int>)
    ensures r == ParseWith(s, dbl, IntCast)
    ensures r.Ok? ==> IsLong(r.value)
  {
    ghost var total := SumPairs(Pairs(s[0..]), 0, dbl, IntCast);
    ParseFromStart(s, dbl, IntCast);
    var result := 0;
    var pos := 0;
    while pos < |s|
      invariant 0 <= pos <= |s|
      invariant SumPairs(Pairs(s[pos..]), result, dbl, IntCast) == total
      invariant IsLong(result)
      decreases |s| - pos
    {
      var p := Find(s, pos);
      if p == |s| {
        break;
      }
      var m := MatchHere(s[p..]).value;
      var numeral, word := s[p..][..m.numEnd], s[p..][m.wordStart..m.wordEnd];
      var next := p + m.wordEnd;
      PairsAtMatch(s, p, m, next);
      var unit := ParseUnit(word);
      if unit.Throws? {
        SumFirstUnnamed(Pair(numeral, word), Pairs(s[next..]), result, dbl, IntCast);
        return Throws(IllegalArgument);
      }
      var numstr := NumberText(numeral);
      var c := Contribution(numstr, Scale(unit.value), dbl, IntCast);
      var sum := WrapLong(result + c);
      Advance(Pairs(s[pos..]), Pair(numeral, word), Pairs(s[next..]), unit.value, result, c, sum, total, dbl, IntCast);
      result, pos := sum, next;
    }
    return Ok(result);
  }

  /** `parse` scans the whole text from its first position. */
  lemma {:induction false} ParseFromStart(s: string, dbl: (string, int) -> int, cast: Cast)
    ensures ParseWith(s, dbl, cast) == SumPairs(Pairs(s[0..]), 0, dbl, cast)
  {
    assert s[0..] == s;
  }

  /** `matcher.find()`: the first position from `from` on where the pattern
      matches, or the end of the text; the pairs from there on are those from `from` on. */
  method Find(s: string, from: nat) returns (p: nat)
    requires from <= |s|
    ensures from <= p <= |s|
    ensures p < |s| ==> MatchHere(s[p..]).Some?
    ensures Pairs(s[p..]) == Pairs(s[from..])
  {
    p := from;
    while p < |s|
      invariant from <= p <= |s|
      invariant Pairs(s[p..]) == Pairs(s[from..])
      decreases |s| - p
    {
      var m := MatchHere(s[p..]);
      if m.Some? {
        return;
      }
      PairsSkip(s, p);
      p := p + 1;
    }
  }

  /** Where the pattern does not match, `find()` moves on one position. */
  lemma {:induction false} PairsSkip(s: string, p: nat)
    requires p < |s| && MatchHere(s[p..]).None?
    ensures Pairs(s[p..]) == Pairs(s[p + 1..])
  {
    assert s[p..][1..] == s[p + 1..];
  }

  /** At a match, `find()` reports its pair and resumes where the match ends. */
  lemma {:induction false} PairsAtMatch(s: string, p: nat, m: Token, next: nat)
    requires p < |s| && MatchHere(s[p..]) == Some(m) && next == p + m.wordEnd
    ensures p < next <= |s|
    ensures Pairs(s[p..]) == [Pair(s[p..][..m.numEnd], s[p..][m.wordStart..m.wordEnd])] + Pairs(s[next..])
  {
    assert s[p..][m.wordEnd..] == s[next..];
  }

  /** Adding up a sequence of pairs whose first word names no unit throws. */
  lemma {:induction false} SumFirstUnnamed(x: Pair, rest: seq<Pair>, acc: int, dbl: (string, int) -> int, cast: Cast)
    requires UnitNamed(x.word) == None
    ensures SumPairs([x] + rest, acc, dbl, cast) == Throws(IllegalArgument)
  {
    assert ([x] + rest)[0] == x;
  }

  /** Adding up a sequence of pairs whose first word names `u`. */
  lemma {:induction false} SumFirstNamed(x: Pair, rest: seq<Pair>, acc: int, u: Unit, c: int, dbl: (string, int) -> int, cast: Cast)
    requires UnitNamed(x.word) == Some(u)
    requires c == Contribution(NumberText(x.numeral), Scale(u), dbl, cast)
    ensures SumPairs([x] + rest, acc, dbl, cast) == SumPairs(rest, WrapLong(acc + c), dbl, cast)
  {
    assert ([x] + rest)[0] == x;
    assert ([x] + rest)[1..] == rest;
  }

  /** One round of the loop in `Parse`: the pairs still to be added start with
      `x`, whose word names `u` and whose numeral contributes `c`. */
  lemma {:induction false} Advance(ps: seq<Pair>, x: Pair, rest: seq<Pair>, u: Unit, acc: int, c: int, sum: int, total: Result<int>, dbl: (string, int) -> int, cast: Cast)
    requires ps == [x] + rest
    requires SumPairs(ps, acc, dbl, cast) == total
    requires UnitNamed(x.word) == Some(u)
    requires c == Contribution(NumberText(x.numeral), Scale(u), dbl, cast)
    requires sum == WrapLong(acc + c)
    ensures SumPairs(rest, sum, dbl, cast) == total
  {
    SumFirstNamed(x, rest, acc, u, c, dbl, cast);
  }

  // ---------------------------------------------------------------------------
  // Properties of parse

  /** Text without a digit holds no pair, so `parse` returns 0 for it. */
  lemma {:induction false} NoDigitsNoPairs(t: string)
    requires forall i :: 0 <= i < |t| ==> !IsDigit(t[i])
    ensures Pairs(t) == []
    decreases |t|
  {
    if t != [] {
      assert LastDigit(t, RunLen(t)).None?;
      NoDigitsNoPairs(t[1..]);
    }
  }

  /** A word that names no unit makes `parse` throw `IllegalArgumentException`
      once the pairs before it have been added. */
  lemma {:induction false} UnknownUnitThrows(ps: seq<Pair>, k: nat, acc: int, dbl: (string, int) -> int, cast: Cast)
    requires k < |ps| && UnitNamed(ps[k].word).None?
    requires forall i :: 0 <= i < k ==> UnitNamed(ps[i].word).Some?
    ensures SumPairs(ps, acc, dbl, cast) == Throws(IllegalArgument)
  {
    if k > 0 {
      var u := UnitNamed(ps[0].word).value;
      UnknownUnitThrows(ps[1..], k - 1, WrapLong(acc + Contribution(NumberText(ps[0].numeral), Scale(u), dbl, cast)), dbl, cast);
    }
  }

  /** Text without a digit parses to 0, whichever narrowing is used. */
  lemma {:induction false} ParseNoDigits(t: string, dbl: (string, int) -> int, cast: Cast)
    requires forall i :: 0 <= i < |t| ==> !IsDigit(t[i])
    ensures ParseWith(t, dbl, cast) == Ok(0)
  {
    NoDigitsNoPairs(t);
  }

  /** A minus sign is not part of the pattern, so `parse` reads a negative
      duration as its magnitude. */
  lemma {:induction false} ParseIgnoresMinus(t: string, dbl: (string, int) -> int, cast: Cast)
    ensures ParseWith("-" + t, dbl, cast) == ParseWith(t, dbl, cast)
  {
    PairsSkipOther("-" + t);
    assert ("-" + t)[1..] == t;
  }

  /** Text without digits that does not end in white space starts no match, so
      `find()` passes over it. */
  lemma {:induction false} FillerIgnored(w: string, t: string)
    requires forall i :: 0 <= i < |w| ==> !IsDigit(w[i])
    requires w == [] || !IsNumChar(w[|w| - 1])
    ensures Pairs(w + t) == Pairs(t)
    decreases |w|
  {
    if w != [] {
      var wt := w + t;
      assert wt[|w| - 1] == w[|w| - 1];
      var n := RunLen(wt);
      assert n < |w|;
      forall j | 0 <= j < n ensures !IsDigit(wt[j]) {
        assert wt[j] == w[j];
      }
      assert LastDigit(wt, n).None?;
      assert MatchHere(wt).None?;
      assert Pairs(wt) == Pairs(wt[1..]);
      assert wt[1..] == w[1..] + t;
      FillerIgnored(w[1..], t);
    } else {
      assert w + t == t;
    }
  }

  /** Text between pairs is ignored: filler in front of the rest of the text
      does not change what `parse` returns. */
  lemma {:induction false} ParseSkipsFiller(w: string, t: string, dbl: (string, int) -> int, cast: Cast)
    requires forall i :: 0 <= i < |w| ==> !IsDigit(w[i])
    requires w == [] || !IsNumChar(w[|w| - 1])
    ensures ParseWith(w + t, dbl, cast) == ParseWith(t, dbl, cast)
  {
    FillerIgnored(w, t);
  }

  /** A numeral `Long.parseLong` rejects contributes its floating-point product
      narrowed by the cast: `(int)` clamps a product above `Integer.MAX_VALUE`,
      which `(long)` keeps. */
  lemma {:induction false} FractionNarrowing(numstr: string, scale: int, dbl: (string, int) -> int)
    requires ParseLong(numstr) == None && INT_MAX < dbl(numstr, scale) <= LONG_MAX
    ensures Contribution(numstr, scale, dbl, IntCast) == INT_MAX
    ensures Contribution(numstr, scale, dbl, LongCast) == dbl(numstr, scale)
  {
  }

  /** "30.5d" is 30.5 days, 2635200000 ms: `parse` as written returns 2147483647,
      about 24.86 days, while the `(long)` narrowing returns the duration. */
  lemma {:induction false} FractionOfDays(dbl: (string, int) -> int)
    requires dbl("30.5", 86400000) == 2635200000
    ensures ParseWith("30.5d", dbl, IntCast) == Ok(INT_MAX)
    ensures ParseText("30.5d", dbl) == Ok(2635200000)
  {
    FractionContribution(dbl, IntCast);
    FractionContribution(dbl, LongCast);
  }

  /** "30.5d" adds up to the narrowed floating-point product for 30.5 days. */
  lemma {:induction false} FractionContribution(dbl: (string, int) -> int, cast: Cast)
    ensures ParseWith("30.5d", dbl, cast) == Ok(WrapLong(Narrow(cast, dbl("30.5", 86400000))))
  {
    PairsOfFraction();
    var x := Pair("30.5", "d");
    var c := Narrow(cast, dbl("30.5", 86400000));
    var u := DayPair(x, c, dbl, cast);
    assert [x] + [] == [x];
    SumFirstNamed(x, [], 0, u, c, dbl, cast);
  }

  /** The pair ("30.5", "d") names days and contributes the narrowed product. */
  lemma {:induction false} DayPair(x: Pair, c: int, dbl: (string, int) -> int, cast: Cast) returns (u: Unit)
    requires x == Pair("30.5", "d") && c == Narrow(cast, dbl("30.5", 86400000))
    ensures UnitNamed(x.word) == Some(u)
    ensures c == Contribution(NumberText(x.numeral), Scale(u), dbl, cast)
  {
    NumeralOfFraction();
    LabelsParse(4);
    u := UnitNamed(x.word).value;
  }

  /** The pattern reads "30.5d" as the single pair ("30.5", "d"). */
  lemma {:induction false} PairsOfFraction()
    ensures Pairs("30.5d") == [Pair("30.5", "d")]
  {
    MatchOfFraction();
    FractionSlices("30.5d");
    PairsWhole("30.5d", Token(4, 4, 5), "30.5", "d");
  }

  lemma {:induction false} FractionSlices(t: string)
    requires t == "30.5d"
    ensures t != [] && t[..4] == "30.5" && t[4..5] == "d"
  {
  }

  /** A match that reaches the end of the text is its only pair. */
  lemma {:induction false} PairsWhole(t: string, m: Token, numeral: string, word: string)
    requires t != [] && MatchHere(t) == Some(m) && m.wordEnd == |t|
    requires t[..m.numEnd] == numeral && t[m.wordStart..m.wordEnd] == word
    ensures Pairs(t) == [Pair(numeral, word)]
  {
    assert t[m.wordEnd..] == [];
  }

  lemma {:induction false} MatchOfFraction()
    ensures MatchHere("30.5d") == Some(Token(4, 4, 5))
  {
    var t := "30.5d";
    assert RunLen(t) == 2 by {
      assert t[1..] == "0.5d" && t[2..] == ".5d";
    }
    assert LastDigit(t, 2) == Some(1);
    FractionPartOfFraction();
    MatchAtSeparator(t, 2, Token(4, 4, 5));
  }

  /** The pattern takes the fraction when the leading run ends in a digit
      directly followed by a separator. */
  lemma {:induction false} MatchAtSeparator(t: string, q: nat, m: Token)
    requires q == RunLen(t) && 0 < q < |t| && LastDigit(t, q) == Some(q - 1) && IsSeparator(t[q])
    requires FractionMatch(t, q) == Some(m)
    ensures MatchHere(t) == Some(m)
  {
  }

  /** After "30." comes the run "5" and then the letter "d". */
  lemma {:induction false} FractionPartOfFraction()
    ensures FractionMatch("30.5d", 2) == Some(Token(4, 4, 5))
  {
    var t := "30.5d";
    var rest := t[3..];
    assert rest == "5d";
    assert RunLen(rest) == 1 by {
      assert rest[1..] == "d";
    }
    assert LastDigit(rest, 1) == Some(0);
    assert LetterLen(t[4..]) == 1;
  }

  /** "30.5" is left as it is and is not a `long` numeral. */
  lemma {:induction false} NumeralOfFraction()
    ensures NumberText("30.5") == "30.5" && ParseLong("30.5") == None
  {
    var n := "30.5";
    assert n[2] == '.';
    forall i | 0 <= i < |n| ensures !IsSpace(n[i]) && n[i] != ',' {
      assert n[i] == '3' || n[i] == '0' || n[i] == '.' || n[i] == '5';
    }
    NumberTextUnchanged(n);
  }

  /** A word that is not the name of a constant, such as "years", throws. */
  lemma {:induction false} ParseUnknownWord(dbl: (string, int) -> int, cast: Cast)
    ensures ParseWith("5 years", dbl, cast) == Throws(IllegalArgument)
  {
    PairsOfChunk("5 years", "", "5", " ", "years", "");
    NoYearUnit();
    UnknownUnitThrows([Pair("5", "years")], 0, 0, dbl, cast);
  }

  // ---------------------------------------------------------------------------
  // The decomposition `toString` prints

  /** One printed component: the quotient for the band with id `id`. */
  datatype Component = Component(num: int, id: int)

  /** The components the loop of `toString` prints while `i` runs down to `min`:
      `ms` is what is left to decompose and `added` counts the components printed
      so far (the builder is empty exactly when none has been). Ids outside 0..4
      name no unit and are passed over. */
  function Components(ms: int, i: int, min: int, elems: int, showEmpty: bool, added: nat): (r: seq<Component>)
    ensures forall k :: 0 <= k < |r| ==> 0 <= r[k].id <= 4 && min <= r[k].id <= i
    ensures forall j, k :: 0 <= j < k < |r| ==> r[j].id > r[k].id
    decreases i - min + 1
  {
    if i < min || added == elems then []
    else if !(0 <= i <= 4) then Components(ms, i - 1, min, elems, showEmpty, added)
    else
      var num := JDiv(ms, ChainScale(i));
      var rest := JRem(ms, ChainScale(i));
      if num != 0 || showEmpty || (i == min && added == 0) then
        [Component(num, i)] + Components(rest, i - 1, min, elems, showEmpty, added + 1)
      else Components(rest, i - 1, min, elems, showEmpty, added)
  }

  /** The label of a component: the shortening, or the singular for a quotient of
      1 or -1 and the plural otherwise. */
  function Label(c: Component, useShortenings: bool): string
    requires 0 <= c.id <= 4
  {
    if useShortenings then ShortLabel(c.id)
    else if c.num == 1 || c.num == -1 then SingularLabel(c.id)
    else PluralLabel(c.id)
  }

  /** A component as printed: the number, `predelim`, the label. */
  function ComponentText(c: Component, useShortenings: bool, pre: string): string
    requires 0 <= c.id <= 4
  {
    LongToString(c.num) + pre + Label(c, useShortenings)
  }

  predicate ValidIds(cs: seq<Component>) {
    forall k :: 0 <= k < |cs| ==> 0 <= cs[k].id <= 4
  }

  /** The components after the first, each preceded by `postdelim`. */
  function Tail(cs: seq<Component>, useShortenings: bool, pre: string, post: string): string
    requires ValidIds(cs)
  {
    if cs == [] then ""
    else post + ComponentText(cs[0], useShortenings, pre) + Tail(cs[1..], useShortenings, pre, post)
  }

  /** The text the builder holds once `cs` have been appended. */
  function Render(cs: seq<Component>, useShortenings: bool, pre: string, post: string): string
    requires ValidIds(cs)
  {
    if cs == [] then ""
    else ComponentText(cs[0], useShortenings, pre) + Tail(cs[1..], useShortenings, pre, post)
  }

  /** Appending one more component to the builder: `postdelim` first unless the
      builder is empty, then the component. */
  lemma {:induction false} RenderSnoc(cs: seq<Component>, c: Component, useShortenings: bool, pre: string, post: string)
    requires ValidIds(cs) && 0 <= c.id <= 4
    ensures ValidIds(cs + [c])
    ensures Render(cs + [c], useShortenings, pre, post)
         == Render(cs, useShortenings, pre, post) + (if cs == [] then "" else post) + ComponentText(c, useShortenings, pre)
  {
    var ds := cs + [c];
    var b := ComponentText(c, useShortenings, pre);
    if cs == [] {
      assert ds == [c] && ds[1..] == [];
      assert Render(ds, useShortenings, pre, post) == b + "";
      Concat3("", "", b);
    } else {
      assert ds[0] == cs[0] && ds[1..] == cs[1..] + [c];
      TailSnoc(cs[1..], c, useShortenings, pre, post);
      var a := ComponentText(cs[0], useShortenings, pre);
      var t := Tail(cs[1..], useShortenings, pre, post);
      Concat4(a, t, post, b);
    }
  }

  lemma {:induction false} TailSnoc(cs: seq<Component>, c: Component, useShortenings: bool, pre: string, post: string)
    requires ValidIds(cs) && 0 <= c.id <= 4
    ensures ValidIds(cs + [c])
    ensures Tail(cs + [c], useShortenings, pre, post)
         == Tail(cs, useShortenings, pre, post) + post + ComponentText(c, useShortenings, pre)
    decreases |cs|
  {
    var ds := cs + [c];
    ValidSnoc(cs, c);
    var b := ComponentText(c, useShortenings, pre);
    if cs == [] {
      TailCons(ds, c, [], useShortenings, pre, post);
      Concat3("", post, b);
    } else {
      TailCons(ds, cs[0], cs[1..] + [c], useShortenings, pre, post);
      TailCons(cs, cs[0], cs[1..], useShortenings, pre, post);
      TailSnoc(cs[1..], c, useShortenings, pre, post);
      var a := ComponentText(cs[0], useShortenings, pre);
      var t := Tail(cs[1..], useShortenings, pre, post);
      Concat4(post + a, t, post, b);
    }
  }

  lemma {:induction false} ValidSnoc(cs: seq<Component>, c: Component)
    requires ValidIds(cs) && 0 <= c.id <= 4
    ensures ValidIds(cs + [c]) && (cs != [] ==> (cs + [c])[1..] == cs[1..] + [c])
  {
    forall k | 0 <= k < |cs + [c]| ensures 0 <= (cs + [c])[k].id <= 4 {
      if k < |cs| {
        assert (cs + [c])[k] == cs[k];
      }
    }
  }

  /** `Tail` of a non-empty sequence, one step. */
  lemma {:induction false} TailCons(ds: seq<Component>, d: Component, rest: seq<Component>, useShortenings: bool, pre: string, post: string)
    requires ValidIds(ds) && ds != [] && ds[0] == d && ds[1..] == rest
    ensures ValidIds(rest) && 0 <= d.id <= 4
    ensures Tail(ds, useShortenings, pre, post) == post + ComponentText(d, useShortenings, pre) + Tail(rest, useShortenings, pre, post)
  {
  }

  lemma {:induction false} Concat3(x: string, y: string, z: string)
    ensures x + y + z + "" == x + y + z
  {
  }

  lemma {:induction false} Concat4(x: string, t: string, p: string, b: string)
    ensures x + (t + p + b) == x + t + p + b
  {
  }

  function DefaultPre(useShortenings: bool): string { if useShortenings then "" else " " }
  function DefaultPost(useShortenings: bool): string { if useShortenings then " " else ", " }

  /** `toString(min, max, elems, showEmpty, useShortenings, predelim, postdelim)` of a
      time whose `calculateMillis()` is `ms`; a missing (null) delimiter takes its default. */
  function Format(ms: int, min: int, max: int, elems: int, showEmpty: bool, useShortenings: bool,
                  predelim: Option<string>, postdelim: Option<string>): Result<string>
    requires min > INT_MIN
  {
    if min > max then Throws(IllegalArgument)
    else if elems == 0 then Throws(IllegalArgument)
    else
      var pre := if predelim.Some? then predelim.value else DefaultPre(useShortenings);
      var post := if postdelim.Some? then postdelim.value else DefaultPost(useShortenings);
      Ok(Render(Components(ms, max, min, elems, showEmpty, 0), useShortenings, pre, post))
  }

  // ---------------------------------------------------------------------------
  // What the decomposition promises

  /** The milliseconds the components stand for. */
  function Total(cs: seq<Component>): int
    requires ValidIds(cs)
  {
    if cs == [] then 0 else cs[0].num * ChainScale(cs[0].id) + Total(cs[1..])
  }

  /** A positive `elems` caps the number of components printed. */
  lemma {:induction false} ComponentsCount(ms: int, i: int, min: int, elems: int, showEmpty: bool, added: nat)
    requires 0 < elems && added <= elems
    ensures added + |Components(ms, i, min, elems, showEmpty, added)| <= elems
    decreases i - min + 1
  {
    if i < min || added == elems {
    } else if !(0 <= i <= 4) {
      ComponentsCount(ms, i - 1, min, elems, showEmpty, added);
    } else {
      var rest := JRem(ms, ChainScale(i));
      ComponentsCount(rest, i - 1, min, elems, showEmpty, added + 1);
      ComponentsCount(rest, i - 1, min, elems, showEmpty, added);
    }
  }

  /** When the smallest band requested is a unit, something is always printed:
      the band `min` is printed when nothing was printed before it. */
  lemma {:induction false} ComponentsNonEmpty(ms: int, i: int, min: int, elems: int, showEmpty: bool)
    requires 0 <= min <= 4 && min <= i && elems != 0
    ensures |Components(ms, i, min, elems, showEmpty, 0)| >= 1
    decreases i - min + 1
  {
    if !(0 <= i <= 4) {
      ComponentsNonEmpty(ms, i - 1, min, elems, showEmpty);
    } else if i > min {
      var rest := JRem(ms, ChainScale(i));
      ComponentsNonEmpty(rest, i - 1, min, elems, showEmpty);
    }
  }

  lemma {:induction false} TotalCons(c: Component, cs: seq<Component>)
    requires 0 <= c.id <= 4 && ValidIds(cs)
    ensures ValidIds([c] + cs) && Total([c] + cs) == c.num * ChainScale(c.id) + Total(cs)
  {
    assert ([c] + cs)[0] == c;
    assert ([c] + cs)[1..] == cs;
  }

  /** With no cap and every band down to milliseconds visited, the printed
      components add up to the time they decompose. */
  lemma {:induction false} ComponentsRecombine(ms: int, i: int, min: int, showEmpty: bool, added: nat)
    requires min <= 0 <= i
    ensures Total(Components(ms, i, min, -1, showEmpty, added)) == ms
    decreases i - min + 1
  {
    if i > 4 {
      ComponentsRecombine(ms, i - 1, min, showEmpty, added);
    } else {
      var sc := ChainScale(i);
      var num := JDiv(ms, sc);
      var rest := JRem(ms, sc);
      var printed := num != 0 || showEmpty || (i == min && added == 0);
      var next := if printed then added + 1 else added;
      var tl := Components(rest, i - 1, min, -1, showEmpty, next);
      if i == 0 {
        JDivOne(ms);
        NoComponentsBelowZero(rest, -1, min, -1, showEmpty, next);
      } else {
        ComponentsRecombine(rest, i - 1, min, showEmpty, next);
      }
      if printed {
        TotalCons(Component(num, i), tl);
      }
    }
  }

  /** Below band 0 there is nothing to print. */
  lemma {:induction false} NoComponentsBelowZero(ms: int, i: int, min: int, elems: int, showEmpty: bool, added: nat)
    requires i < 0
    ensures Components(ms, i, min, elems, showEmpty, added) == []
    decreases i - min + 1
  {
    if i >= min && added != elems {
      NoComponentsBelowZero(ms, i - 1, min, elems, showEmpty, added);
    }
  }

  /** Every component of `cs` carries the sign of `ms` and none exceeds it. */
  predicate BoundedBy(cs: seq<Component>, ms: int)
    requires ValidIds(cs)
  {
    forall k :: 0 <= k < |cs| ==>
      (ms >= 0 ==> cs[k].num >= 0 && cs[k].num * ChainScale(cs[k].id) <= ms) &&
      (ms <= 0 ==> cs[k].num <= 0 && ms <= cs[k].num * ChainScale(cs[k].id))
  }

  lemma {:induction false} BoundedWeaken(cs: seq<Component>, a: int, b: int)
    requires ValidIds(cs) && BoundedBy(cs, a)
    requires 0 <= a <= b || b <= a <= 0
    ensures BoundedBy(cs, b)
  {
  }

  lemma {:induction false} BoundedCons(c: Component, cs: seq<Component>, ms: int)
    requires 0 <= c.id <= 4 && ValidIds(cs) && BoundedBy(cs, ms)
    requires ms >= 0 ==> c.num >= 0 && c.num * ChainScale(c.id) <= ms
    requires ms <= 0 ==> c.num <= 0 && ms <= c.num * ChainScale(c.id)
    ensures ValidIds([c] + cs) && BoundedBy([c] + cs, ms)
  {
    forall k | 1 <= k < |cs| + 1 ensures ([c] + cs)[k] == cs[k - 1] {
    }
  }

  /** Every component carries the sign of the time, and no component exceeds it. */
  lemma {:induction false} ComponentsSign(ms: int, i: int, min: int, elems: int, showEmpty: bool, added: nat)
    ensures BoundedBy(Components(ms, i, min, elems, showEmpty, added), ms)
    decreases i - min + 1
  {
    if i < min || added == elems {
    } else if !(0 <= i <= 4) {
      ComponentsSign(ms, i - 1, min, elems, showEmpty, added);
    } else {
      var sc := ChainScale(i);
      var num := JDiv(ms, sc);
      var rest := JRem(ms, sc);
      var printed := num != 0 || showEmpty || (i == min && added == 0);
      var next := if printed then added + 1 else added;
      var tl := Components(rest, i - 1, min, elems, showEmpty, next);
      ComponentsSign(rest, i - 1, min, elems, showEmpty, next);
      BoundedWeaken(tl, rest, ms);
      if printed {
        BoundedCons(Component(num, i), tl, ms);
      }
    }
  }

  /** Each component with its quotient negated. */
  function Negated(cs: seq<Component>): (r: seq<Component>)
    ensures |r| == |cs|
  {
    seq(|cs|, k requires 0 <= k < |cs| => Component(-cs[k].num, cs[k].id))
  }

  lemma {:induction false} NegatedCons(c: Component, cs: seq<Component>)
    ensures Negated([c] + cs) == [Component(-c.num, c.id)] + Negated(cs)
  {
    var a, b := Negated([c] + cs), [Component(-c.num, c.id)] + Negated(cs);
    forall k | 0 <= k < |a| ensures a[k] == b[k] {
      if k > 0 {
        assert ([c] + cs)[k] == cs[k - 1];
      }
    }
  }

  /** Because Java division truncates toward zero, a negative time prints the
      components of its magnitude, each negated. */
  lemma {:induction false} ComponentsNegate(ms: int, i: int, min: int, elems: int, showEmpty: bool, added: nat)
    ensures Components(-ms, i, min, elems, showEmpty, added) == Negated(Components(ms, i, min, elems, showEmpty, added))
    decreases i - min + 1
  {
    if i < min || added == elems {
    } else if !(0 <= i <= 4) {
      ComponentsNegate(ms, i - 1, min, elems, showEmpty, added);
    } else {
      var num := JDiv(ms, ChainScale(i));
      var rest := JRem(ms, ChainScale(i));
      JDivNeg(ms, ChainScale(i));
      ComponentsNegate(rest, i - 1, min, elems, showEmpty, added + 1);
      ComponentsNegate(rest, i - 1, min, elems, showEmpty, added);
      var tl := Components(rest, i - 1, min, elems, showEmpty, added + 1);
      NegatedCons(Component(num, i), tl);
    }
  }

  // ---------------------------------------------------------------------------
  // Reading back what toString prints

  predicate AllSpaces(s: string) { forall i :: 0 <= i < |s| ==> IsSpace(s[i]) }
  predicate AllLetters(s: string) { forall i :: 0 <= i < |s| ==> IsLetter(s[i]) }

  lemma {:induction false} RunLenAppend(x: string, y: string)
    requires forall i :: 0 <= i < |x| ==> IsNumChar(x[i])
    ensures RunLen(x + y) == |x| + RunLen(y)
    decreases |x|
  {
    if x != [] {
      assert (x + y)[0] == x[0];
      assert (x + y)[1..] == x[1..] + y;
      RunLenAppend(x[1..], y);
    } else {
      assert x + y == y;
    }
  }

  lemma {:induction false} LetterLenAppend(x: string, y: string)
    requires AllLetters(x)
    ensures LetterLen(x + y) == |x| + LetterLen(y)
    decreases |x|
  {
    if x != [] {
      assert (x + y)[0] == x[0];
      assert (x + y)[1..] == x[1..] + y;
      LetterLenAppend(x[1..], y);
    } else {
      assert x + y == y;
    }
  }

  /** The last digit before `n` is the one at `a - 1` when none follows it. */
  lemma {:induction false} LastDigitAt(t: string, a: nat, n: nat)
    requires 0 < a <= n <= |t| && IsDigit(t[a - 1])
    requires forall j :: a <= j < n ==> !IsDigit(t[j])
    ensures LastDigit(t, n) == Some(a - 1)
    decreases n
  {
    if n > a {
      LastDigitAt(t, a, n - 1);
    }
  }

  /** White space before a numeral is dropped from it. */
  lemma {:induction false} NumberTextAfterSpaces(lead: string, s: string)
    requires AllSpaces(lead)
    ensures NumberText(lead + s) == NumberText(s)
    decreases |lead|
  {
    if lead != [] {
      assert (lead + s)[0] == lead[0];
      assert (lead + s)[1..] == lead[1..] + s;
      NumberTextAfterSpaces(lead[1..], s);
    } else {
      assert lead + s == s;
    }
  }

  /** A character that cannot start group 1 is passed over by `find()`. */
  lemma {:induction false} PairsSkipOther(t: string)
    requires |t| > 0 && !IsNumChar(t[0])
    ensures Pairs(t) == Pairs(t[1..])
  {
    assert RunLen(t) == 0;
  }

  /** The pattern matches at the start of `run + (word + rest)` when `run` is
      digits and white space whose last digit is at `a - 1`, and `word` is the
      whole run of letters that follows. */
  lemma {:induction false} ChunkMatch(t: string, run: string, a: nat, word: string, rest: string)
    requires t == run + (word + rest)
    requires forall i :: 0 <= i < |run| ==> IsNumChar(run[i])
    requires 0 < a <= |run| && IsDigit(run[a - 1])
    requires forall j :: a <= j < |run| ==> IsSpace(run[j])
    requires |word| > 0 && AllLetters(word)
    requires rest == [] || !IsLetter(rest[0])
    ensures MatchHere(t) == Some(Token(a, |run|, |run| + |word|))
  {
    var q := |run|;
    LeadingRun(t, run, a, word + rest);
    ChunkWord(word, rest);
    assert t[q..] == word + rest;
    MatchAtLetters(t, q, a, |word|);
  }

  /** The leading run of a chunk ends where its word starts, and its last digit is at `a - 1`. */
  lemma {:induction false} LeadingRun(t: string, run: string, a: nat, wr: string)
    requires t == run + wr && wr != [] && IsLetter(wr[0])
    requires forall i :: 0 <= i < |run| ==> IsNumChar(run[i])
    requires 0 < a <= |run| && IsDigit(run[a - 1])
    requires forall j :: a <= j < |run| ==> IsSpace(run[j])
    ensures RunLen(t) == |run| < |t| && LastDigit(t, |run|) == Some(a - 1)
  {
    var q := |run|;
    assert !IsNumChar(wr[0]);
    assert RunLen(wr) == 0;
    RunLenAppend(run, wr);
    forall j | a <= j < q ensures !IsDigit(t[j]) {
      assert t[j] == run[j];
    }
    assert t[a - 1] == run[a - 1];
    LastDigitAt(t, a, q);
  }

  /** A word followed by a non-letter is a maximal run of letters. */
  lemma {:induction false} ChunkWord(word: string, rest: string)
    requires |word| > 0 && AllLetters(word)
    requires rest == [] || !IsLetter(rest[0])
    ensures (word + rest)[0] == word[0] && IsLetter(word[0])
    ensures LetterLen(word + rest) == |word|
  {
    LetterLenAppend(word, rest);
    assert LetterLen(rest) == 0;
  }

  /** The pattern matches at the start of `t` when a run of letters follows the
      leading digits and white space, and the run's last digit is at `a - 1`. */
  lemma {:induction false} MatchAtLetters(t: string, q: nat, a: nat, n: nat)
    requires q == RunLen(t) && 0 < a <= q < |t| && LastDigit(t, q) == Some(a - 1)
    requires IsLetter(t[q]) && LetterLen(t[q..]) == n
    ensures MatchHere(t) == Some(Token(a, q, q + n))
  {
  }

  /** A numeral (after white space), white space, a word and then a character
      that is not a letter: `find()` reports the numeral and the word as one pair
      and carries on after the word. */
  lemma {:induction false} PairsOfChunk(t: string, lead: string, digits: string, gap: string, word: string, rest: string)
    requires t == lead + digits + gap + word + rest
    requires AllSpaces(lead) && AllSpaces(gap)
    requires |digits| > 0 && AllDigits(digits)
    requires |word| > 0 && AllLetters(word)
    requires rest == [] || !IsLetter(rest[0])
    ensures Pairs(t) == [Pair(lead + digits, word)] + Pairs(rest)
  {
    var run := lead + digits + gap;
    var a := |lead| + |digits|;
    ChunkRun(lead, digits, gap);
    assert t == run + (word + rest);
    ChunkMatch(t, run, a, word, rest);
    var m := Token(a, |run|, |run| + |word|);
    ChunkSlices(t, lead + digits, gap, word, rest);
    PairsAt(t, m, lead + digits, word, rest);
  }

  /** Leading white space, digits and white space: a run of digits and white
      space whose last digit ends the digits. */
  lemma {:induction false} ChunkRun(lead: string, digits: string, gap: string)
    requires AllSpaces(lead) && AllSpaces(gap)
    requires |digits| > 0 && AllDigits(digits)
    ensures var run := lead + digits + gap;
      var a := |lead| + |digits|;
      (forall i :: 0 <= i < |run| ==> IsNumChar(run[i]))
      && (forall j :: a <= j < |run| ==> IsSpace(run[j]))
      && IsDigit(run[a - 1])
  {
    var run := lead + digits + gap;
    var a := |lead| + |digits|;
    forall i | 0 <= i < |run| ensures IsNumChar(run[i]) && (a <= i ==> IsSpace(run[i])) {
      if i < |lead| {
        assert run[i] == lead[i];
      } else if i < a {
        assert run[i] == digits[i - |lead|];
      } else {
        assert run[i] == gap[i - a];
      }
    }
    assert run[a - 1] == digits[|digits| - 1];
  }

  /** The slices of a chunk `numeral + gap + word + rest`. */
  lemma {:induction false} ChunkSlices(t: string, numeral: string, gap: string, word: string, rest: string)
    requires t == numeral + gap + word + rest
    ensures t[..|numeral|] == numeral
    ensures t[|numeral + gap|..|numeral + gap| + |word|] == word
    ensures t[|numeral + gap| + |word|..] == rest
  {
  }

  /** Where the pattern matches at the start, `find()` reports that pair and
      carries on after its word. */
  lemma {:induction false} PairsAt(t: string, m: Token, numeral: string, word: string, rest: string)
    requires t != [] && MatchHere(t) == Some(m)
    requires t[..m.numEnd] == numeral && t[m.wordStart..m.wordEnd] == word && t[m.wordEnd..] == rest
    ensures Pairs(t) == [Pair(numeral, word)] + Pairs(rest)
  {
  }

  predicate NonNegative(cs: seq<Component>) { forall k :: 0 <= k < |cs| ==> cs[k].num >= 0 }

  lemma {:induction false} TotalNonNegative(cs: seq<Component>)
    requires ValidIds(cs) && NonNegative(cs)
    ensures Total(cs) >= 0
    decreases |cs|
  {
    if cs != [] {
      TotalNonNegative(cs[1..]);
    }
  }

  /** Components of a non-negative time are non-negative. */
  lemma {:induction false} BoundedNonNegative(cs: seq<Component>, ms: int)
    requires ValidIds(cs) && BoundedBy(cs, ms) && ms >= 0
    ensures NonNegative(cs)
  {
  }

  lemma {:induction false} ShortLetters(id: int)
    requires 0 <= id <= 4
    ensures |ShortLabel(id)| > 0 && AllLetters(ShortLabel(id))
  {
  }

  lemma {:induction false} SingularLetters(id: int)
    requires 0 <= id <= 4
    ensures |SingularLabel(id)| > 0 && AllLetters(SingularLabel(id))
  {
  }

  lemma {:induction false} PluralLetters(id: int)
    requires 0 <= id <= 4
    ensures |PluralLabel(id)| > 0 && AllLetters(PluralLabel(id))
  {
  }

  /** Every label is a non-empty word the parser maps back to the unit of its band. */
  lemma {:induction false} LabelFacts(c: Component, useShortenings: bool) returns (u: Unit)
    requires 0 <= c.id <= 4
    ensures |Label(c, useShortenings)| > 0 && AllLetters(Label(c, useShortenings))
    ensures UnitNamed(Label(c, useShortenings)) == Some(u) && Scale(u) == ChainScale(c.id)
  {
    LabelsParse(c.id);
    if useShortenings {
      ShortLetters(c.id);
      u := UnitNamed(ShortLabel(c.id)).value;
    } else if c.num == 1 || c.num == -1 {
      SingularLetters(c.id);
      u := UnitNamed(SingularLabel(c.id)).value;
    } else {
      PluralLetters(c.id);
      u := UnitNamed(PluralLabel(c.id)).value;
    }
  }

  /** The text after a component is empty or starts with `postdelim`. */
  lemma {:induction false} TailStart(cs: seq<Component>, useShortenings: bool, pre: string, post: string)
    requires ValidIds(cs) && |post| > 0
    ensures Tail(cs, useShortenings, pre, post) == [] || Tail(cs, useShortenings, pre, post)[0] == post[0]
  {
  }

  /** A numeral after white space reads as the number whose digits it shows. */
  lemma {:induction false} NumeralReads(lead: string, n: nat)
    requires AllSpaces(lead) && n <= LONG_MAX
    ensures ParseLong(NumberText(lead + NatToString(n))) == Some(n)
  {
    NumberTextAfterSpaces(lead, NatToString(n));
    NumberTextUnchanged(NatToString(n));
    ParseLongOfNatToString(n);
  }

  /** Adding a pair whose numeral reads as `n` and whose word names a unit of scale `sc`. */
  lemma {:induction false} PairSum(ps: seq<Pair>, x: Pair, rest: seq<Pair>, n: nat, u: Unit, p: int, acc: int, dbl: (string, int) -> int, cast: Cast)
    requires ps == [x] + rest
    requires ParseLong(NumberText(x.numeral)) == Some(n)
    requires UnitNamed(x.word) == Some(u) && p == n * Scale(u)
    requires acc >= 0 && p >= 0 && acc + p <= LONG_MAX
    ensures SumPairs(ps, acc, dbl, cast) == SumPairs(rest, acc + p, dbl, cast)
  {
    assert Contribution(NumberText(x.numeral), Scale(u), dbl, cast) == p;
    SumFirstNamed(x, rest, acc, u, p, dbl, cast);
    assert WrapLong(acc + p) == acc + p;
  }

  lemma {:induction false} NoLessThanFactor(n: nat, sc: int)
    requires sc >= 1
    ensures n <= n * sc
  {
    assert n * sc == n * (sc - 1) + n;
  }



  /** Pair `k` reads as component `k`: its numeral as the quotient and its word
      as a unit of the component's band. */
  predicate ReadsAs(ps: seq<Pair>, cs: seq<Component>)
    requires ValidIds(cs)
  {
    |ps| == |cs| &&
    (ps != [] ==>
      && ParseLong(NumberText(ps[0].numeral)) == Some(cs[0].num)
      && UnitNamed(ps[0].word).Some?
      && Scale(UnitNamed(ps[0].word).value) == ChainScale(cs[0].id)
      && ReadsAs(ps[1..], cs[1..]))
  }

  lemma {:induction false} ReadsAsCons(x: Pair, ps: seq<Pair>, c: Component, cs: seq<Component>, xps: seq<Pair>, ccs: seq<Component>)
    requires 0 <= c.id <= 4 && ValidIds(cs) && ReadsAs(ps, cs)
    requires ParseLong(NumberText(x.numeral)) == Some(c.num)
    requires UnitNamed(x.word).Some? && Scale(UnitNamed(x.word).value) == ChainScale(c.id)
    requires xps == [x] + ps && ccs == [c] + cs
    ensures ValidIds(ccs) && ReadsAs(xps, ccs)
  {
    assert xps[1..] == ps;
    assert ccs[1..] == cs;
  }


  /** What the first pair of a non-empty reading says. */
  lemma {:induction false} ReadsAsHead(ps: seq<Pair>, cs: seq<Component>) returns (u: Unit)
    requires ValidIds(cs) && ReadsAs(ps, cs) && cs != []
    ensures ps == [ps[0]] + ps[1..]
    ensures ParseLong(NumberText(ps[0].numeral)) == Some(cs[0].num)
    ensures UnitNamed(ps[0].word) == Some(u) && Scale(u) == ChainScale(cs[0].id)
    ensures ValidIds(cs[1..]) && ReadsAs(ps[1..], cs[1..])
  {
    u := UnitNamed(ps[0].word).value;
  }

  lemma {:induction false} SumChain(whole: Result<int>, tail: Result<int>, acc: int, p: int, rest: int, total: int)
    requires whole == tail && tail == Ok(acc + p + rest) && total == p + rest
    ensures whole == Ok(acc + total)
  {
  }

  /** The first pair adds the first component's share `p` to the sum. */
  lemma {:induction false} SumHead(ps: seq<Pair>, cs: seq<Component>, acc: int, dbl: (string, int) -> int, cast: Cast) returns (p: int)
    requires ValidIds(cs) && NonNegative(cs) && ReadsAs(ps, cs) && cs != []
    requires 0 <= acc && acc + Total(cs) <= LONG_MAX
    ensures p >= 0 && Total(cs) == p + Total(cs[1..])
    ensures ValidIds(cs[1..]) && NonNegative(cs[1..]) && ReadsAs(ps[1..], cs[1..])
    ensures SumPairs(ps, acc, dbl, cast) == SumPairs(ps[1..], acc + p, dbl, cast)
  {
    var u := ReadsAsHead(ps, cs);
    TotalSplit(cs);
    p := cs[0].num * ChainScale(cs[0].id);
    PairSum(ps, ps[0], ps[1..], cs[0].num, u, p, acc, dbl, cast);
  }

  /** The total of non-negative components is the first one's share plus the rest's. */
  lemma {:induction false} TotalSplit(cs: seq<Component>)
    requires ValidIds(cs) && NonNegative(cs) && cs != []
    ensures cs[0].num <= cs[0].num * ChainScale(cs[0].id)
    ensures Total(cs) == cs[0].num * ChainScale(cs[0].id) + Total(cs[1..])
    ensures ValidIds(cs[1..]) && NonNegative(cs[1..]) && Total(cs[1..]) >= 0
  {
    TotalNonNegative(cs[1..]);
    NoLessThanFactor(cs[0].num, ChainScale(cs[0].id));
  }

  /** Adding up pairs that read as non-negative components gives their total. */
  lemma {:induction false} SumReadsAs(ps: seq<Pair>, cs: seq<Component>, acc: int, dbl: (string, int) -> int, cast: Cast)
    requires ValidIds(cs) && NonNegative(cs) && ReadsAs(ps, cs)
    requires 0 <= acc && acc + Total(cs) <= LONG_MAX
    ensures SumPairs(ps, acc, dbl, cast) == Ok(acc + Total(cs))
    decreases |cs|
  {
    if cs != [] {
      var p := SumHead(ps, cs, acc, dbl, cast);
      SumReadsAs(ps[1..], cs[1..], acc + p, dbl, cast);
      SumChain(SumPairs(ps, acc, dbl, cast), SumPairs(ps[1..], acc + p, dbl, cast), acc, p, Total(cs[1..]), Total(cs));
    } else {
      assert |ps| == 0;
    }
  }

  /** A printed component followed by text whose pairs read as the remaining
      components reads as all of them. */
  lemma {:induction false} ChunkReadsAs(t: string, lead: string, gap: string, word: string, rest: string, cs: seq<Component>)
    requires ValidIds(cs) && cs != [] && 0 <= cs[0].num <= LONG_MAX
    requires t == lead + NatToString(cs[0].num) + gap + word + rest
    requires AllSpaces(lead) && AllSpaces(gap) && |word| > 0 && AllLetters(word)
    requires UnitNamed(word).Some? && Scale(UnitNamed(word).value) == ChainScale(cs[0].id)
    requires rest == [] || !IsLetter(rest[0])
    requires ReadsAs(Pairs(rest), cs[1..])
    ensures ReadsAs(Pairs(t), cs)
  {
    var x := Pair(lead + NatToString(cs[0].num), word);
    PairsOfChunk(t, lead, NatToString(cs[0].num), gap, word, rest);
    FirstReadsAs(x, Pairs(rest), lead, cs);
  }

  /** A pair whose numeral is a printed component's number, after white space,
      and whose word names its unit, followed by pairs that read as the
      remaining components. */
  lemma {:induction false} FirstReadsAs(x: Pair, ps: seq<Pair>, lead: string, cs: seq<Component>)
    requires ValidIds(cs) && cs != [] && 0 <= cs[0].num <= LONG_MAX && AllSpaces(lead)
    requires x.numeral == lead + NatToString(cs[0].num)
    requires UnitNamed(x.word).Some? && Scale(UnitNamed(x.word).value) == ChainScale(cs[0].id)
    requires ReadsAs(ps, cs[1..])
    ensures ReadsAs([x] + ps, cs)
  {
    var c := cs[0];
    NumeralReads(lead, c.num);
    assert [c] + cs[1..] == cs;
    ReadsAsCons(x, ps, c, cs[1..], [x] + ps, cs);
  }

  lemma {:induction false} Regroup(a: string, b: string, c: string, d: string, e: string)
    ensures a + (b + c + d) + e == a + b + c + d + e
  {
  }

  /** The text after the first component, with the default delimiters: a space
      (after a comma when labels are written out) before each number. */
  lemma {:induction false} TailShape(cs: seq<Component>, useShortenings: bool)
    requires ValidIds(cs) && cs != [] && cs[0].num >= 0
    ensures var t := Tail(cs, useShortenings, DefaultPre(useShortenings), DefaultPost(useShortenings));
      var rest := Tail(cs[1..], useShortenings, DefaultPre(useShortenings), DefaultPost(useShortenings));
      var word := Label(cs[0], useShortenings);
      if useShortenings then t == " " + NatToString(cs[0].num) + "" + word + rest
      else |t| > 0 && t[0] == ',' && t[1..] == " " + NatToString(cs[0].num) + " " + word + rest
  {
    var pre, post := DefaultPre(useShortenings), DefaultPost(useShortenings);
    var t := Tail(cs, useShortenings, pre, post);
    var rest := Tail(cs[1..], useShortenings, pre, post);
    var word := Label(cs[0], useShortenings);
    var n := NatToString(cs[0].num);
    assert t == post + (n + pre + word) + rest;
    Regroup(post, n, pre, word, rest);
    if !useShortenings {
      CommaFirst(n, word, rest);
    }
  }

  lemma {:induction false} CommaFirst(n: string, word: string, rest: string)
    ensures var t := ", " + n + " " + word + rest;
      |t| > 0 && t[0] == ',' && t[1..] == " " + n + " " + word + rest
  {
    var x := n + " " + word + rest;
    assert ", " + n + " " + word + rest == ", " + x;
    assert " " + n + " " + word + rest == " " + x;
    assert (", " + x)[1..] == " " + x;
  }

  /** The whole text: the first number, `predelim`, the first label, the rest. */
  lemma {:induction false} RenderShape(cs: seq<Component>, useShortenings: bool)
    requires ValidIds(cs) && cs != [] && cs[0].num >= 0
    ensures Render(cs, useShortenings, DefaultPre(useShortenings), DefaultPost(useShortenings)) ==
      "" + NatToString(cs[0].num) + DefaultPre(useShortenings) + Label(cs[0], useShortenings)
        + Tail(cs[1..], useShortenings, DefaultPre(useShortenings), DefaultPost(useShortenings))
  {
    var pre, post := DefaultPre(useShortenings), DefaultPost(useShortenings);
    var rest := Tail(cs[1..], useShortenings, pre, post);
    var word := Label(cs[0], useShortenings);
    var n := NatToString(cs[0].num);
    Regroup("", n, pre, word, rest);
    assert "" + (n + pre + word) == n + pre + word;
  }

  /** The text after the first component reads as the components after the first. */
  lemma {:induction false} TailReadsAs(cs: seq<Component>, useShortenings: bool)
    requires ValidIds(cs) && NonNegative(cs) && Total(cs) <= LONG_MAX
    ensures ReadsAs(Pairs(Tail(cs, useShortenings, DefaultPre(useShortenings), DefaultPost(useShortenings))), cs)
    decreases |cs|
  {
    var pre, post := DefaultPre(useShortenings), DefaultPost(useShortenings);
    var t := Tail(cs, useShortenings, pre, post);
    if cs == [] {
      assert Pairs(t) == [];
    } else {
      var c := cs[0];
      TotalSplit(cs);
      TailReadsAs(cs[1..], useShortenings);
      var word := Label(c, useShortenings);
      var u := LabelFacts(c, useShortenings);
      var rest := Tail(cs[1..], useShortenings, pre, post);
      TailStart(cs[1..], useShortenings, pre, post);
      TailShape(cs, useShortenings);
      if useShortenings {
        ChunkReadsAs(t, " ", "", word, rest, cs);
      } else {
        PairsSkipOther(t);
        ChunkReadsAs(t[1..], " ", " ", word, rest, cs);
      }
    }
  }

  /** The whole text reads as the components. */
  lemma {:induction false} RenderReadsAs(cs: seq<Component>, useShortenings: bool)
    requires ValidIds(cs) && NonNegative(cs) && Total(cs) <= LONG_MAX
    ensures ReadsAs(Pairs(Render(cs, useShortenings, DefaultPre(useShortenings), DefaultPost(useShortenings))), cs)
  {
    var pre, post := DefaultPre(useShortenings), DefaultPost(useShortenings);
    var t := Render(cs, useShortenings, pre, post);
    if cs == [] {
      assert Pairs(t) == [];
    } else {
      var c := cs[0];
      TotalSplit(cs);
      TailReadsAs(cs[1..], useShortenings);
      var word := Label(c, useShortenings);
      var u := LabelFacts(c, useShortenings);
      var rest := Tail(cs[1..], useShortenings, pre, post);
      TailStart(cs[1..], useShortenings, pre, post);
      RenderShape(cs, useShortenings);
      ChunkReadsAs(t, "", pre, word, rest, cs);
    }
  }

  /** A text whose pairs read as non-negative components parses as their total,
      whichever narrowing the fractional branch uses. */
  lemma {:induction false} ParsesAsTotal(t: string, cs: seq<Component>, dbl: (string, int) -> int, cast: Cast)
    requires ValidIds(cs) && NonNegative(cs) && Total(cs) <= LONG_MAX
    requires ReadsAs(Pairs(t), cs)
    ensures ParseWith(t, dbl, cast) == Ok(Total(cs))
  {
    TotalNonNegative(cs);
    SumReadsAs(Pairs(t), cs, 0, dbl, cast);
    ParseIs(t, dbl, cast, 0 + Total(cs));
  }

  lemma {:induction false} ParseIs(t: string, dbl: (string, int) -> int, cast: Cast, v: int)
    requires SumPairs(Pairs(t), 0, dbl, cast) == Ok(v)
    ensures ParseWith(t, dbl, cast) == Ok(v)
  {
  }

  /** `parse` reads back the total of what `toString` wrote, with the default delimiters. */
  lemma {:induction false} RenderParses(cs: seq<Component>, useShortenings: bool, dbl: (string, int) -> int, cast: Cast)
    requires ValidIds(cs) && NonNegative(cs) && Total(cs) <= LONG_MAX
    ensures ParseWith(Render(cs, useShortenings, DefaultPre(useShortenings), DefaultPost(useShortenings)), dbl, cast) == Ok(Total(cs))
  {
    RenderReadsAs(cs, useShortenings);
    ParsesAsTotal(Render(cs, useShortenings, DefaultPre(useShortenings), DefaultPost(useShortenings)), cs, dbl, cast);
  }

  /** Round trip: for a time of zero or more milliseconds, `parse` reads back what
      `toString` prints with every component shown and the default delimiters,
      long or short labels, with or without empty components. Every numeral
      printed is an integer, so the narrowing of the fractional branch plays no part. */
  lemma {:induction false} FormatParses(ms: int, min: int, max: int, showEmpty: bool, useShortenings: bool, dbl: (string, int) -> int, cast: Cast)
    requires 0 <= ms <= LONG_MAX && INT_MIN < min <= 0 <= max
    ensures Format(ms, min, max, -1, showEmpty, useShortenings, None, None).Ok?
    ensures ParseWith(Format(ms, min, max, -1, showEmpty, useShortenings, None, None).value, dbl, cast) == Ok(ms)
  {
    var cs := Components(ms, max, min, -1, showEmpty, 0);
    ComponentsSign(ms, max, min, -1, showEmpty, 0);
    BoundedNonNegative(cs, ms);
    ComponentsRecombine(ms, max, min, showEmpty, 0);
    RenderParses(cs, useShortenings, dbl, cast);
  }
}
