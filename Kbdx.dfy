/** `Kbdx.msToString`, which writes a duration as years (of 365 days), days,
    hours, minutes, seconds and milliseconds, and `Kbdx.contains` on arrays
    of `int` and `long`. */
module Kbdx {
  import opened JavaLang

  /** The most components `msToString` prints; `args == -1` stands for it. */
  const MAX_ARGS: int := 6

  /** The suffix of each band, largest first. */
  const SUFFIXES: seq<string> := ["y", "d", "h", "m", "s", "ms"]

  /** The chain of `long` divisions and remainders in `msToString`, applied to
      `mag`: [years, days, hours, minutes, seconds, milliseconds]. */
  function Bands(mag: int): (b: seq<int>)
    ensures |b| == 6
  {
    var s := JDiv(mag, 1000);
    var m := JDiv(s, 60);
    var h := JDiv(m, 60);
    var d := JDiv(h, 24);
    [JDiv(d, 365), JRem(d, 365), JRem(h, 24), JRem(m, 60), JRem(s, 60), JRem(mag, 1000)]
  }

  /** The `level` the first `n` tests of `msToString` leave, seconds first: the
      largest `l <= n` whose band (`5 - l`) is positive, or 0 when none is. */
  function LevelUpTo(b: seq<int>, n: nat): (l: nat)
    requires |b| == 6 && n <= 5
    ensures l <= n
  {
    if n == 0 then 0 else if b[5 - n] > 0 then n else LevelUpTo(b, n - 1)
  }

  /** `level`: 5 for years down to 1 for seconds, the largest band whose value is
      positive, or 0 when none of them is. */
  function Level(b: seq<int>): (l: nat)
    requires |b| == 6
    ensures l <= 5
  {
    LevelUpTo(b, 5)
  }

  /** Whether band `k` (0 for years, ..., 5 for milliseconds) is printed: its level
      `5 - k` is at most `level` and more than `level - args`. */
  predicate Printed(level: int, args: int, k: int) {
    5 - k <= level && level - args < 5 - k
  }

  /** The component of band `k`: its number and its suffix. */
  function Part(b: seq<int>, k: int): string
    requires |b| == 6 && 0 <= k < 6
  {
    LongToString(b[k]) + SUFFIXES[k]
  }

  /** The components printed among the first `k` bands. */
  function PartsTo(b: seq<int>, level: int, args: int, k: nat): seq<string>
    requires |b| == 6 && k <= 6
  {
    if k == 0 then []
    else PartsTo(b, level, args, k - 1) + (if Printed(level, args, k - 1) then [Part(b, k - 1)] else [])
  }

  /** The components of bands `lo` up to `hi`, excluded. */
  function Run(b: seq<int>, lo: int, hi: int): (r: seq<string>)
    requires |b| == 6 && 0 <= lo <= hi <= 6
    ensures |r| == hi - lo
  {
    seq(hi - lo, j requires 0 <= j < hi - lo => Part(b, lo + j))
  }

  /** The components `msToString` prints for `mag`. */
  function Parts(mag: int, args: int): seq<string> {
    var b := Bands(mag);
    PartsTo(b, Level(b), args, 6)
  }

  /** Strings separated by single spaces. */
  function Join(ps: seq<string>): string {
    if |ps| == 0 then ""
    else if |ps| == 1 then ps[0]
    else Join(ps[..|ps| - 1]) + " " + ps[|ps| - 1]
  }

  /** What the builder holds once `ps` have been appended: each one followed by a space. */
  function Spaced(ps: seq<string>): string {
    if ps == [] then "" else Spaced(ps[..|ps| - 1]) + ps[|ps| - 1] + " "
  }

  /** The effective number of components: -1 stands for 6. */
  function EffectiveArgs(args: int): int {
    if args == -1 then MAX_ARGS else args
  }

  /** `msToString(input, args)` as written: the text of `Math.abs(input)`, which
      for `Long.MIN_VALUE` is still negative, after a "-" for a negative input. */
  function MsText(input: int, args: int): Result<string>
    requires IsLong(input)
  {
    var a := EffectiveArgs(args);
    if a < 1 || a > MAX_ARGS then Throws(IndexOutOfBounds)
    else Ok((if input < 0 then "-" else "") + Join(Parts(JavaAbs(input), a)))
  }

  /** `msToString(input, args)` with the magnitude taken exactly, so that
      `Long.MIN_VALUE` is written as 2^63 milliseconds after its sign. */
  function MsTextFixed(input: int, args: int): Result<string> {
    var a := EffectiveArgs(args);
    if a < 1 || a > MAX_ARGS then Throws(IndexOutOfBounds)
    else Ok((if input < 0 then "-" else "") + Join(Parts(if input < 0 then -input else input, a)))
  }

  /** `msToString(input, args)`: splits `|input|` into bands, sets `level` from
      the largest positive band, appends "<number><suffix> " for each printed
      band, puts "-" in front of a negative input and drops the last space. */
  method MsToString(input: int, args: int) returns (r: Result<string>)
    requires IsLong(input)
    ensures r == MsText(input, args)
  {
    var maxArgs := MAX_ARGS;
    var a := args;
    if a == -1 {
      a := maxArgs;
    }
    if a < 1 || a > maxArgs {
      return Throws(IndexOutOfBounds);
    }
    var y, d, h, m, s, ms := Divide(JavaAbs(input));
    ghost var b := Bands(JavaAbs(input));
    var level := LevelOf(b, y, d, h, m, s);
    var returnStr := AppendBands(b, level, a, y, d, h, m, s, ms);
    ghost var built := returnStr;
    if input < 0 {
      returnStr := "-" + returnStr;
    }
    BuilderText(input, args, a, b, built, returnStr);
    r := Ok(returnStr[..|returnStr| - 1]);
  }

  /** The builder of `msToString`, less its last space, is `MsText`. */
  lemma {:induction false} BuilderText(input: int, args: int, a: int, b: seq<int>, built: string, sb: string)
    requires IsLong(input) && a == EffectiveArgs(args) && 1 <= a <= MAX_ARGS
    requires b == Bands(JavaAbs(input)) && built == Join(PartsTo(b, Level(b), a, 6)) + " "
    requires sb == (if input < 0 then "-" else "") + built
    ensures |sb| >= 1 && MsText(input, args) == Ok(sb[..|sb| - 1])
  {
    var text := Join(PartsTo(b, Level(b), a, 6));
    var sign := if input < 0 then "-" else "";
    DropLast(sign, text);
    MsTextIs(input, args, a, text);
  }

  /** The divisions of `msToString`: milliseconds into seconds, minutes, hours,
      days and years of 365 days, each keeping its remainder. */
  method Divide(mag: int) returns (y: int, d: int, h: int, m: int, s: int, ms: int)
    ensures [y, d, h, m, s, ms] == Bands(mag)
  {
    ms := mag;
    s := JDiv(ms, 1000);
    ms := JRem(ms, 1000);
    m := JDiv(s, 60);
    s := JRem(s, 60);
    h := JDiv(m, 60);
    m := JRem(m, 60);
    d := JDiv(h, 24);
    h := JRem(h, 24);
    y := JDiv(d, 365);
    d := JRem(d, 365);
  }

  /** The five tests of `msToString` that set `level`, seconds first. */
  method LevelOf(ghost b: seq<int>, y: int, d: int, h: int, m: int, s: int) returns (level: nat)
    requires |b| == 6 && b[0] == y && b[1] == d && b[2] == h && b[3] == m && b[4] == s
    ensures level == Level(b)
  {
    level := 0;
    if s > 0 {
      level := 1;
    }
    assert level == LevelUpTo(b, 1);
    if m > 0 {
      level := 2;
    }
    assert level == LevelUpTo(b, 2);
    if h > 0 {
      level := 3;
    }
    assert level == LevelUpTo(b, 3);
    if d > 0 {
      level := 4;
    }
    assert level == LevelUpTo(b, 4);
    if y > 0 {
      level := 5;
    }
  }

  /** The six `if`s of `msToString` that fill the builder: the printed
      components, each followed by a space. */
  method AppendBands(ghost b: seq<int>, level: nat, args: int, y: int, d: int, h: int, m: int, s: int, ms: int)
    returns (sb: string)
    requires b == [y, d, h, m, s, ms] && level <= 5 && 1 <= args
    ensures sb == Join(PartsTo(b, level, args, 6)) + " "
  {
    var upper := AppendUpper(b, level, args, y, d, h);
    sb := AppendLower(b, level, args, m, s, ms, upper);
    PartsNonEmpty(b, level, args);
    SpacedJoin(PartsTo(b, level, args, 6));
  }

  /** The first three `if`s of `msToString`: years, days and hours. */
  method AppendUpper(ghost b: seq<int>, level: nat, args: int, y: int, d: int, h: int)
    returns (sb: string)
    requires |b| == 6 && b[0] == y && b[1] == d && b[2] == h
    ensures sb == Spaced(PartsTo(b, level, args, 3))
  {
    sb := "";
    sb := AppendBand(b, level, args, 1, y, "y", sb);
    sb := AppendBand(b, level, args, 2, d, "d", sb);
    sb := AppendBand(b, level, args, 3, h, "h", sb);
  }

  /** The last three `if`s of `msToString`: minutes, seconds and milliseconds. */
  method AppendLower(ghost b: seq<int>, level: nat, args: int, m: int, s: int, ms: int, upper: string)
    returns (sb: string)
    requires |b| == 6 && b[3] == m && b[4] == s && b[5] == ms
    requires upper == Spaced(PartsTo(b, level, args, 3))
    ensures sb == Spaced(PartsTo(b, level, args, 6))
  {
    sb := AppendBand(b, level, args, 4, m, "m", upper);
    sb := AppendBand(b, level, args, 5, s, "s", sb);
    sb := AppendBand(b, level, args, 6, ms, "ms", sb);
  }

  /** One of the six `if`s of `msToString`: band `k - 1`, worth `v`, is appended
      with its suffix and a space when its level, `6 - k`, is at most `level` and
      more than `level - args`. */
  method AppendBand(ghost b: seq<int>, level: int, args: int, k: nat, v: int, suffix: string, sb: string)
    returns (sb': string)
    requires |b| == 6 && 1 <= k <= 6 && v == b[k - 1] && suffix == SUFFIXES[k - 1]
    requires sb == Spaced(PartsTo(b, level, args, k - 1))
    ensures sb' == Spaced(PartsTo(b, level, args, k))
  {
    var ps := PartsTo(b, level, args, k - 1);
    if level >= 6 - k && level - args < 6 - k {
      sb' := sb + (LongToString(v) + suffix + " ");
      assert Printed(level, args, k - 1);
      assert PartsTo(b, level, args, k) == ps + [Part(b, k - 1)];
      SpacedSnoc(ps, Part(b, k - 1));
      assert sb' == Spaced(ps) + Part(b, k - 1) + " ";
      assert sb' == Spaced(PartsTo(b, level, args, k));
    } else {
      sb' := sb;
      assert !Printed(level, args, k - 1);
      assert PartsTo(b, level, args, k) == ps + [];
      assert ps + [] == ps;
      assert sb' == Spaced(PartsTo(b, level, args, k));
    }
  }

  /** `MsText` in terms of the joined components of `|input|`. */
  lemma {:induction false} MsTextIs(input: int, args: int, a: int, text: string)
    requires IsLong(input) && a == EffectiveArgs(args) && 1 <= a <= MAX_ARGS
    requires text == Join(Parts(JavaAbs(input), a))
    ensures MsText(input, args) == Ok((if input < 0 then "-" else "") + text)
    ensures input >= 0 ==> MsText(input, args) == Ok(text)
  {
    assert "" + text == text;
  }

  lemma {:induction false} SpacedSnoc(ps: seq<string>, p: string)
    ensures Spaced(ps + [p]) == Spaced(ps) + p + " "
  {
    assert (ps + [p])[..|ps|] == ps;
  }

  /** The builder is the joined text plus one trailing space. */
  lemma {:induction false} SpacedJoin(ps: seq<string>)
    requires ps != []
    ensures Spaced(ps) == Join(ps) + " "
    decreases |ps|
  {
    if |ps| > 1 {
      SpacedJoin(ps[..|ps| - 1]);
    } else {
      assert ps[..0] == [];
    }
  }

  lemma {:induction false} DropLast(sign: string, j: string)
    ensures (sign + (j + " "))[..|sign + (j + " ")| - 1] == sign + j
  {
    assert sign + (j + " ") == (sign + j) + " ";
  }

  // ---------------------------------------------------------------------------
  // Which bands are printed

  /** The printed bands are the `args` bands from the level's band downward,
      cut off after milliseconds: band `k` is printed iff `5 - level <= k < 5 - level + args`. */
  lemma {:induction false} PrintedRange(level: nat, args: int, k: int)
    requires level <= 5 && 0 <= k < 6
    ensures Printed(level, args, k) <==> 5 - level <= k < 5 - level + args
  {
  }

  /** Where the printed run of bands ends after the first `k` bands have been looked at. */
  function RunEnd(level: int, args: int, k: int): int {
    var lo := 5 - level;
    if k <= lo then lo else if k < lo + args then k else lo + args
  }

  /** The first `k` bands print the run of bands from `5 - level` on, `args` of them at most. */
  lemma {:induction false} PartsToRun(b: seq<int>, level: nat, args: int, k: nat)
    requires |b| == 6 && level <= 5 && 1 <= args && k <= 6
    ensures 5 - level <= RunEnd(level, args, k) <= 6
    ensures PartsTo(b, level, args, k) == Run(b, 5 - level, RunEnd(level, args, k))
    decreases k
  {
    var lo := 5 - level;
    if k == 0 {
      assert Run(b, lo, lo) == [];
    } else {
      PartsToRun(b, level, args, k - 1);
      PrintedRange(level, args, k - 1);
      var hi := RunEnd(level, args, k - 1);
      if Printed(level, args, k - 1) {
        assert hi == k - 1 && RunEnd(level, args, k) == k;
        RunSnoc(b, lo, hi);
      } else {
        assert RunEnd(level, args, k) == hi;
        assert PartsTo(b, level, args, k) == PartsTo(b, level, args, k - 1) + [];
      }
    }
  }

  lemma {:induction false} RunSnoc(b: seq<int>, lo: int, hi: int)
    requires |b| == 6 && 0 <= lo <= hi < 6
    ensures Run(b, lo, hi + 1) == Run(b, lo, hi) + [Part(b, hi)]
  {
    var r, r' := Run(b, lo, hi), Run(b, lo, hi + 1);
    forall j | 0 <= j < |r'| ensures r'[j] == (r + [Part(b, hi)])[j] {
      if j < |r| {
        assert r'[j] == Part(b, lo + j) == r[j];
      }
    }
  }

  /** `msToString` prints `min(args, level + 1)` components: the band of the level
      and the ones below it in order, zero bands included. */
  lemma {:induction false} PartsShape(mag: int, args: int)
    requires 1 <= args <= MAX_ARGS
    ensures var b := Bands(mag);
      var level := Level(b);
      var n := if args < level + 1 then args else level + 1;
      Parts(mag, args) == Run(b, 5 - level, 5 - level + n)
  {
    var b := Bands(mag);
    PartsToRun(b, Level(b), args, 6);
  }

  lemma {:induction false} PartsNonEmpty(b: seq<int>, level: nat, args: int)
    requires |b| == 6 && level <= 5 && 1 <= args
    ensures PartsTo(b, level, args, 6) != []
  {
    PartsToRun(b, level, args, 6);
  }

  /** `Bands` given the chain of quotients: seconds, minutes, hours and days. */
  lemma {:induction false} BandsChain(mag: int, s: int, m: int, h: int, d: int)
    requires s == JDiv(mag, 1000) && m == JDiv(s, 60) && h == JDiv(m, 60) && d == JDiv(h, 24)
    ensures Bands(mag) == [JDiv(d, 365), JRem(d, 365), JRem(h, 24), JRem(m, 60), JRem(s, 60), JRem(mag, 1000)]
  {
  }

  /** `Level` as the five tests of `msToString` set it, written out. */
  lemma {:induction false} LevelUnrolled(b: seq<int>)
    requires |b| == 6
    ensures Level(b) == if b[0] > 0 then 5 else if b[1] > 0 then 4 else if b[2] > 0 then 3
      else if b[3] > 0 then 2 else if b[4] > 0 then 1 else 0
  {
    var l1, l2, l3, l4 := LevelUpTo(b, 1), LevelUpTo(b, 2), LevelUpTo(b, 3), LevelUpTo(b, 4);
    assert l1 == if b[4] > 0 then 1 else 0;
    assert l2 == if b[3] > 0 then 2 else l1;
    assert l3 == if b[2] > 0 then 3 else l2;
    assert l4 == if b[1] > 0 then 4 else l3;
  }

  /** Conversely, a level whose band is positive (unless it is 0) and above
      which no band is positive is the level. */
  lemma {:induction false} LevelIs(b: seq<int>, l: int)
    requires |b| == 6 && 0 <= l <= 5
    requires l > 0 ==> b[5 - l] > 0
    requires forall k :: 0 <= k < 5 - l ==> b[k] <= 0
    ensures Level(b) == l
  {
    LevelUnrolled(b);
  }

  /** The level's band is positive and every band above it is not, so the first
      component printed is the largest positive band (or the milliseconds). */
  lemma {:induction false} LevelIsTop(b: seq<int>)
    requires |b| == 6
    ensures Level(b) > 0 ==> b[5 - Level(b)] > 0
    ensures forall k :: 0 <= k < 5 - Level(b) ==> b[k] <= 0
  {
    LevelUpToTop(b, 5);
  }

  lemma {:induction false} LevelUpToTop(b: seq<int>, n: nat)
    requires |b| == 6 && n <= 5
    ensures LevelUpTo(b, n) > 0 ==> b[5 - LevelUpTo(b, n)] > 0
    ensures forall k :: 5 - n <= k < 5 - LevelUpTo(b, n) ==> b[k] <= 0
    decreases n
  {
    if n > 0 && b[5 - n] <= 0 {
      LevelUpToTop(b, n - 1);
    }
  }

  // ---------------------------------------------------------------------------
  // The bands of a magnitude

  /** For a non-negative magnitude the bands are within their ranges and add up
      to the magnitude again. */
  lemma {:induction false} BandsRecombine(n: int)
    requires n >= 0
    ensures var b := Bands(n);
      b[0] >= 0 && 0 <= b[1] < 365 && 0 <= b[2] < 24 && 0 <= b[3] < 60 && 0 <= b[4] < 60 && 0 <= b[5] < 1000
      && ((((b[0] * 365 + b[1]) * 24 + b[2]) * 60 + b[3]) * 60 + b[4]) * 1000 + b[5] == n
  {
    var s := JDiv(n, 1000);
    var m := JDiv(s, 60);
    var h := JDiv(m, 60);
    var d := JDiv(h, 24);
    var y := JDiv(d, 365);
    assert n == s * 1000 + JRem(n, 1000);
    assert s == m * 60 + JRem(s, 60);
    assert m == h * 60 + JRem(m, 60);
    assert h == d * 24 + JRem(h, 24);
    assert d == y * 365 + JRem(d, 365);
  }

  // ---------------------------------------------------------------------------
  // Properties of msToString

  /** `args == -1` means 6; any other value outside 1..6 throws
      IndexOutOfBoundsException, and every value inside succeeds. */
  lemma {:induction false} MsTextArgs(input: int, args: int)
    requires IsLong(input)
    ensures MsText(input, -1) == MsText(input, 6)
    ensures MsText(input, args).Throws? <==> args != -1 && (args < 1 || args > 6)
    ensures MsText(input, args).Throws? ==> MsText(input, args).exc == IndexOutOfBounds
  {
  }

  /** A negative input is "-" followed by the text of its magnitude. */
  lemma {:induction false} MsTextNegative(input: int, args: int)
    requires IsLong(input) && LONG_MIN < input < 0 && MsText(input, args).Ok?
    ensures MsText(-input, args).Ok?
    ensures MsText(input, args).value == "-" + MsText(-input, args).value
  {
  }

  /** Below one second the text is the single component "<n>ms". */
  lemma {:induction false} MsTextBelowSecond(input: int, args: int)
    requires 0 <= input < 1000 && MsText(input, args).Ok?
    ensures MsText(input, args).value == LongToString(input) + "ms"
  {
    var a := EffectiveArgs(args);
    PartsBelowSecond(input, a);
    MsTextIs(input, args, a, LongToString(input) + "ms");
  }

  lemma {:induction false} PartsBelowSecond(n: int, args: int)
    requires 0 <= n < 1000 && 1 <= args <= MAX_ARGS
    ensures Join(Parts(n, args)) == LongToString(n) + "ms"
  {
    var b := [0, 0, 0, 0, 0, n];
    LevelIs(b, 0);
    BandsBelowSecond(n);
    OnlyMilliseconds(n, args, b);
  }

  lemma {:induction false} BandsBelowSecond(n: int)
    requires 0 <= n < 1000
    ensures Bands(n) == [0, 0, 0, 0, 0, n]
  {
    assert JDiv(n, 1000) == 0;
    assert JRem(n, 1000) == n;
    BandsChain(n, 0, 0, 0, 0);
  }

  /** A magnitude whose bands are all 0 but the milliseconds prints that band alone. */
  lemma {:induction false} OnlyMilliseconds(mag: int, args: int, b: seq<int>)
    requires 1 <= args <= MAX_ARGS && |b| == 6 && Bands(mag) == b && Level(b) == 0
    ensures Parts(mag, args) == [Part(b, 5)]
    ensures Join(Parts(mag, args)) == LongToString(b[5]) + "ms"
  {
    PartsShape(mag, args);
    RunOne(b, 5);
  }

  lemma {:induction false} RunOne(b: seq<int>, lo: int)
    requires |b| == 6 && 0 <= lo < 6
    ensures Run(b, lo, lo + 1) == [Part(b, lo)]
  {
    assert Run(b, lo, lo + 1)[0] == Part(b, lo);
  }

  lemma {:induction false} RunTwo(b: seq<int>, lo: int)
    requires |b| == 6 && 0 <= lo < 5
    ensures Run(b, lo, lo + 2) == [Part(b, lo), Part(b, lo + 1)]
  {
    RunOne(b, lo);
    RunSnoc(b, lo, lo + 1);
  }

  lemma {:induction false} RunThree(b: seq<int>, lo: int)
    requires |b| == 6 && 0 <= lo < 4
    ensures Run(b, lo, lo + 3) == [Part(b, lo), Part(b, lo + 1), Part(b, lo + 2)]
  {
    RunTwo(b, lo);
    RunSnoc(b, lo, lo + 2);
  }

  /** The as-written text and the corrected one differ only at `Long.MIN_VALUE`. */
  lemma {:induction false} MsTextAgrees(input: int, args: int)
    requires IsLong(input) && input != LONG_MIN
    ensures MsText(input, args) == MsTextFixed(input, args)
  {
  }

  /** `Math.abs(Long.MIN_VALUE)` is negative, every band of it is at most 0, and
      `msToString(Long.MIN_VALUE)` is "--808ms". */
  lemma {:induction false} MinValueDoubleSign()
    ensures MsText(LONG_MIN, -1) == Ok("--808ms")
  {
    MinValueText(LONG_MIN);
  }

  lemma {:induction false} MinValueText(x: int)
    requires x == LONG_MIN
    ensures MsText(x, -1) == Ok("--808ms")
  {
    MinValueJoin(x, "-808ms");
    MinValueString();
    MsTextIs(x, -1, 6, "-808ms");
  }

  lemma MinValueString()
    ensures "-" + "-808ms" == "--808ms"
  {
  }

  lemma {:induction false} MinValueJoin(x: int, p: string)
    requires x == LONG_MIN && p == "-808ms"
    ensures Join(Parts(JavaAbs(x), 6)) == p
  {
    var b := [-292471208, -247, -7, -12, -55, -808];
    MinValueMillis();
    LevelIs(b, 0);
    MinValueBands(x);
    OnlyMilliseconds(x, 6, b);
  }

  lemma MinValueMillis()
    ensures LongToString(-808) + "ms" == "-808ms"
  {
    assert NatToString(80) == "80";
  }

  lemma {:induction false} MinValueBands(x: int)
    requires x == LONG_MIN
    ensures Bands(x) == [-292471208, -247, -7, -12, -55, -808]
  {
    assert JDiv(LONG_MIN, 1000) == -9223372036854775;
    assert JDiv(-9223372036854775, 60) == -153722867280912;
    assert JDiv(-153722867280912, 60) == -2562047788015;
    assert JDiv(-2562047788015, 24) == -106751991167;
    BandsChain(LONG_MIN, -9223372036854775, -153722867280912, -2562047788015, -106751991167);
  }

  /** Corrected, the text has its sign at most once: after an optional leading
      "-" every component is digits and a suffix. */
  lemma {:induction false} FixedSingleSign(input: int, args: int)
    requires MsTextFixed(input, args).Ok?
    ensures var t := MsTextFixed(input, args).value;
      var body := if input < 0 then t[1..] else t;
      (input < 0 ==> |t| > 0 && t[0] == '-')
      && forall i :: 0 <= i < |body| ==> body[i] != '-'
  {
    var a := EffectiveArgs(args);
    var n := if input < 0 then -input else input;
    var ps := Parts(n, a);
    BandsRecombine(n);
    PartsShape(n, a);
    forall j | 0 <= j < |ps| ensures NoMinus(ps[j]) {
      var k := 5 - Level(Bands(n)) + j;
      assert ps[j] == Part(Bands(n), k);
      NatTextNoMinus(Bands(n)[k]);
      SuffixNoMinus(k);
      NoMinusConcat(LongToString(Bands(n)[k]), SUFFIXES[k]);
    }
    JoinNoMinus(ps);
    var t := MsTextFixed(input, args).value;
    if input < 0 {
      assert t == "-" + Join(ps);
      assert t[1..] == Join(ps);
    }
  }

  predicate NoMinus(s: string) { forall i :: 0 <= i < |s| ==> s[i] != '-' }

  lemma {:induction false} NatTextNoMinus(n: int)
    requires n >= 0
    ensures NoMinus(LongToString(n))
  {
    assert LongToString(n) == NatToString(n);
  }

  lemma {:induction false} SuffixNoMinus(k: int)
    requires 0 <= k < 6
    ensures NoMinus(SUFFIXES[k])
  {
  }

  lemma {:induction false} NoMinusConcat(x: string, y: string)
    requires NoMinus(x) && NoMinus(y)
    ensures NoMinus(x + y)
  {
    forall i | 0 <= i < |x + y| ensures (x + y)[i] != '-' {
      if i < |x| {
        assert (x + y)[i] == x[i];
      } else {
        assert (x + y)[i] == y[i - |x|];
      }
    }
  }

  lemma {:induction false} JoinNoMinus(ps: seq<string>)
    requires forall j :: 0 <= j < |ps| ==> NoMinus(ps[j])
    ensures NoMinus(Join(ps))
    decreases |ps|
  {
    if |ps| > 1 {
      var init := ps[..|ps| - 1];
      JoinNoMinus(init);
      NoMinusConcat(Join(init), " ");
      NoMinusConcat(Join(init) + " ", ps[|ps| - 1]);
    }
  }

  // ---------------------------------------------------------------------------
  // Examples

  /** 68603 ms is 1 minute, 8 seconds and 603 milliseconds. */
  lemma {:induction false} MinuteExample()
    ensures MsText(68603, -1) == Ok("1m 8s 603ms")
    ensures MsText(68603, 1) == Ok("1m")
    ensures MsText(68603, 2) == Ok("1m 8s")
  {
    MinuteTexts(68603);
  }

  lemma {:induction false} MinuteTexts(x: int)
    requires x == 68603
    ensures MsText(x, -1) == Ok("1m 8s 603ms")
    ensures MsText(x, 1) == Ok("1m")
    ensures MsText(x, 2) == Ok("1m 8s")
  {
    MinuteJoins(x, "1m", "8s", "603ms");
    MinuteStrings();
    MsTextIs(x, -1, 6, "1m 8s 603ms");
    MsTextIs(x, 1, 1, "1m");
    MsTextIs(x, 2, 2, "1m 8s");
  }

  lemma MinuteStrings()
    ensures "1m" + " " + "8s" + " " + "603ms" == "1m 8s 603ms"
    ensures "1m" + " " + "8s" == "1m 8s"
  {
  }

  lemma {:induction false} MinuteJoins(x: int, p: string, q: string, r: string)
    requires x == 68603 && p == "1m" && q == "8s" && r == "603ms"
    ensures Join(Parts(x, 6)) == p + " " + q + " " + r
    ensures Join(Parts(x, 1)) == p
    ensures Join(Parts(x, 2)) == p + " " + q
  {
    var b := [0, 0, 0, 1, 8, 603];
    MinuteParts(x, b);
    MinuteComponents(b);
    JoinThree(p, q, r);
    JoinTwo(p, q);
  }

  lemma {:induction false} MinuteParts(x: int, b: seq<int>)
    requires x == 68603 && b == [0, 0, 0, 1, 8, 603]
    ensures Parts(x, 6) == [Part(b, 3), Part(b, 4), Part(b, 5)]
    ensures Parts(x, 1) == [Part(b, 3)]
    ensures Parts(x, 2) == [Part(b, 3), Part(b, 4)]
  {
    LevelIs(b, 2);
    MinuteBands(x);
    PartsShape(x, 6);
    RunThree(b, 3);
    PartsShape(x, 1);
    RunOne(b, 3);
    PartsShape(x, 2);
    RunTwo(b, 3);
  }

  lemma {:induction false} MinuteBands(x: int)
    requires x == 68603
    ensures Bands(x) == [0, 0, 0, 1, 8, 603]
  {
    assert JDiv(68603, 1000) == 68;
    assert JDiv(68, 60) == 1;
    assert JDiv(1, 60) == 0;
    assert JDiv(0, 24) == 0;
    BandsChain(68603, 68, 1, 0, 0);
  }

  lemma {:induction false} MinuteComponents(b: seq<int>)
    requires b == [0, 0, 0, 1, 8, 603]
    ensures Part(b, 3) == "1m" && Part(b, 4) == "8s" && Part(b, 5) == "603ms"
  {
    assert NatToString(60) == "60";
    assert LongToString(603) == "603";
  }

  /** 220300 ms is 3 minutes, 40 seconds and 300 milliseconds. */
  lemma {:induction false} ThreeMinutesExample()
    ensures MsText(220300, -1) == Ok("3m 40s 300ms")
  {
    ThreeMinutesText(220300);
  }

  lemma {:induction false} ThreeMinutesText(x: int)
    requires x == 220300
    ensures MsText(x, -1) == Ok("3m 40s 300ms")
  {
    ThreeMinutesJoin(x, "3m", "40s", "300ms");
    ThreeMinutesString();
    MsTextIs(x, -1, 6, "3m 40s 300ms");
  }

  lemma ThreeMinutesString()
    ensures "3m" + " " + "40s" + " " + "300ms" == "3m 40s 300ms"
  {
  }

  lemma {:induction false} ThreeMinutesJoin(x: int, p: string, q: string, r: string)
    requires x == 220300 && p == "3m" && q == "40s" && r == "300ms"
    ensures Join(Parts(x, 6)) == p + " " + q + " " + r
  {
    var b := [0, 0, 0, 3, 40, 300];
    LevelIs(b, 2);
    ThreeMinutesBands(x);
    PartsShape(x, 6);
    RunThree(b, 3);
    ThreeMinutesComponents(b);
    JoinThree(p, q, r);
  }

  lemma {:induction false} ThreeMinutesBands(x: int)
    requires x == 220300
    ensures Bands(x) == [0, 0, 0, 3, 40, 300]
  {
    assert JDiv(220300, 1000) == 220;
    assert JDiv(220, 60) == 3;
    assert JDiv(3, 60) == 0;
    assert JDiv(0, 24) == 0;
    BandsChain(220300, 220, 3, 0, 0);
  }

  lemma {:induction false} ThreeMinutesComponents(b: seq<int>)
    requires b == [0, 0, 0, 3, 40, 300]
    ensures Part(b, 3) == "3m" && Part(b, 4) == "40s" && Part(b, 5) == "300ms"
  {
    assert NatToString(30) == "30";
    assert LongToString(300) == "300";
    assert NatToString(4) == "4";
    assert LongToString(40) == "40";
  }

  /** 32061784125 ms is 1 year and 6 days and more; two components with a sign. */
  lemma {:induction false} NegativeYearExample()
    ensures MsText(-32061784125, 2) == Ok("-1y 6d")
  {
    YearText(-32061784125);
  }

  lemma {:induction false} YearText(x: int)
    requires x == -32061784125
    ensures MsText(x, 2) == Ok("-1y 6d")
  {
    YearJoin(-x, "1y", "6d");
    YearString();
    MsTextIs(x, 2, 2, "1y" + " " + "6d");
  }

  lemma YearString()
    ensures "-" + ("1y" + " " + "6d") == "-1y 6d"
  {
  }

  lemma {:induction false} YearJoin(x: int, p: string, q: string)
    requires x == 32061784125 && p == "1y" && q == "6d"
    ensures Join(Parts(x, 2)) == p + " " + q
  {
    var b := [1, 6, 2, 3, 4, 125];
    LevelIs(b, 5);
    YearBands(x);
    PartsShape(x, 2);
    RunTwo(b, 0);
    assert LongToString(1) == "1" && LongToString(6) == "6";
    JoinTwo(p, q);
  }

  lemma {:induction false} YearBands(x: int)
    requires x == 32061784125
    ensures Bands(x) == [1, 6, 2, 3, 4, 125]
  {
    assert JDiv(32061784125, 1000) == 32061784;
    assert JDiv(32061784, 60) == 534363;
    assert JDiv(534363, 60) == 8906;
    assert JDiv(8906, 24) == 371;
    BandsChain(32061784125, 32061784, 534363, 8906, 371);
  }

  lemma {:induction false} JoinTwo(x: string, y: string)
    ensures Join([x, y]) == x + " " + y
  {
    assert [x, y][..1] == [x];
  }

  lemma {:induction false} JoinThree(x: string, y: string, z: string)
    ensures Join([x, y, z]) == x + " " + y + " " + z
  {
    assert [x, y, z][..2] == [x, y];
    JoinTwo(x, y);
  }

  // ---------------------------------------------------------------------------
  // contains

  /** `contains(int[], int)` and `contains(long[], long)`: scans the array for an
      element equal to the target. */
  method Contains(a: array<int>, target: int) returns (found: bool)
    ensures found <==> exists i :: 0 <= i < a.Length && a[i] == target
  {
    var i := 0;
    while i < a.Length
      invariant 0 <= i <= a.Length
      invariant forall j :: 0 <= j < i ==> a[j] != target
    {
      if a[i] == target {
        return true;
      }
      i := i + 1;
    }
    return false;
  }
}
