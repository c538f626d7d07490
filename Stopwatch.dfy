/** `Stopwatch`: named times in milliseconds, held in a map from name to time
    and in a list of the names in the order they were set, and the differences
    between them written out by `Kbdx.msToString`. */
module Stopwatch {
  import opened JavaLang
  import Kbdx

  /** `defaultPattern`: `%A%` stands for a timer, `%B%` for the next one and
      `%C%` for the time between them. */
  const DEFAULT_PATTERN: string := "%A% => %B% took %C%"

  // ---------------------------------------------------------------------------
  // The library calls on the list of names and on strings

  /** `ArrayList.indexOf`: the first position holding `x`, or -1. */
  function IndexOf(s: seq<string>, x: string): (i: int)
    ensures -1 <= i < |s|
    ensures i == -1 <==> x !in s
    ensures i >= 0 ==> s[i] == x && forall j :: 0 <= j < i ==> s[j] != x
    decreases |s|
  {
    if s == [] then -1
    else if s[0] == x then 0
    else
      var k := IndexOf(s[1..], x);
      assert s == [s[0]] + s[1..];
      if k == -1 then -1 else k + 1
  }

  /** `ArrayList.remove(Object)`: the list without its first `x`, if it has one. */
  function RemoveFirst(s: seq<string>, x: string): (r: seq<string>)
    ensures multiset(r) == multiset(s) - multiset{x}
    ensures |r| == if x in s then |s| - 1 else |s|
    decreases |s|
  {
    if s == [] then []
    else
      assert s == [s[0]] + s[1..];
      if s[0] == x then s[1..] else [s[0]] + RemoveFirst(s[1..], x)
  }

  /** `String.replace(target, replacement)`: scanning from the left, each
      occurrence of `t` that does not overlap an earlier one becomes `r`. */
  function Replace(s: string, t: string, r: string): string
    requires |t| > 0
    decreases |s|
  {
    if |s| < |t| then s
    else if s[..|t|] == t then r + Replace(s[|t|..], t, r)
    else [s[0]] + Replace(s[1..], t, r)
  }

  /** Whether `c` is missing from `s`. */
  predicate Lacks(s: string, c: char) {
    forall i :: 0 <= i < |s| ==> s[i] != c
  }

  // ---------------------------------------------------------------------------
  // Time differences

  /** `compareMs(long, long)`: the larger time minus the smaller, in `long` arithmetic. */
  function CompareMs(time1: int, time2: int): (d: int)
    requires IsLong(time1) && IsLong(time2)
    ensures IsLong(d)
  {
    if time1 > time2 then WrapLong(time1 - time2) else WrapLong(time2 - time1)
  }

  /** `compare(long, long, int)`: the difference written by `msToString`; the
      overloads without `args` pass -1. */
  function Compare(time1: int, time2: int, args: int): (r: Result<string>)
    requires IsLong(time1) && IsLong(time2)
    ensures r == Kbdx.MsText(CompareMs(time2, time1), args)
    ensures r.Throws? <==> args != -1 && (args < 1 || args > Kbdx.MAX_ARGS)
    ensures r.Throws? ==> r.exc == IndexOutOfBounds
    ensures 0 <= time1 && 0 <= time2 ==>
      r == Kbdx.MsTextFixed(if time1 > time2 then time1 - time2 else time2 - time1, args)
  {
    CompareMsSymmetric(time1, time2);
    Kbdx.MsTextArgs(CompareMs(time1, time2), args);
    CompareAgrees(time1, time2, args);
    Kbdx.MsText(CompareMs(time1, time2), args)
  }

  /** Between non-negative times the difference is never `Long.MIN_VALUE`, so
      the as-written text is the corrected one. */
  lemma {:induction false} CompareAgrees(time1: int, time2: int, args: int)
    requires IsLong(time1) && IsLong(time2)
    ensures 0 <= time1 && 0 <= time2 ==>
      Kbdx.MsText(CompareMs(time1, time2), args)
        == Kbdx.MsTextFixed(if time1 > time2 then time1 - time2 else time2 - time1, args)
  {
    if 0 <= time1 && 0 <= time2 {
      CompareMsDistance(time1, time2);
      Kbdx.MsTextAgrees(CompareMs(time1, time2), args);
    }
  }

  /** For non-negative times, as every timer holds, the difference is their distance. */
  lemma {:induction false} CompareMsDistance(time1: int, time2: int)
    requires 0 <= time1 <= LONG_MAX && 0 <= time2 <= LONG_MAX
    ensures CompareMs(time1, time2) == if time1 > time2 then time1 - time2 else time2 - time1
    ensures 0 <= CompareMs(time1, time2)
  {
  }

  /** The order of the two times does not matter. */
  lemma {:induction false} CompareMsSymmetric(time1: int, time2: int)
    requires IsLong(time1) && IsLong(time2)
    ensures CompareMs(time1, time2) == CompareMs(time2, time1)
  {
  }

  /** Times of opposite sign can be more than `Long.MAX_VALUE` apart: the
      difference of 0 and `Long.MIN_VALUE` wraps around to `Long.MIN_VALUE`. */
  lemma {:induction false} CompareMsOverflow()
    ensures CompareMs(0, LONG_MIN) == LONG_MIN
  {
    assert WrapLong(-LONG_MIN) == WrapLong(-LONG_MIN - 0x1_0000_0000_0000_0000);
  }

  /** Two times 220300 ms apart compare as "3m 40s 300ms", in either order. */
  lemma {:induction false} CompareThreeMinutes(t: int)
    requires 0 <= t && t + 220300 <= LONG_MAX
    ensures Compare(t, t + 220300, -1) == Ok("3m 40s 300ms")
    ensures Compare(t + 220300, t, -1) == Ok("3m 40s 300ms")
  {
    CompareMsDistance(t, t + 220300);
    CompareMsSymmetric(t, t + 220300);
    Kbdx.ThreeMinutesExample();
  }

  /** Equal times compare as "0ms" for every accepted `args`. */
  lemma {:induction false} CompareSame(t: int, args: int)
    requires IsLong(t) && 1 <= Kbdx.EffectiveArgs(args) <= Kbdx.MAX_ARGS
    ensures Compare(t, t, args) == Ok("0ms")
  {
    var z := CompareMs(t, t);
    assert z == 0;
    Kbdx.MsTextArgs(z, args);
    Kbdx.MsTextBelowSecond(z, args);
    ZeroMillis(z);
  }

  lemma ZeroMillis(z: int)
    requires z == 0
    ensures LongToString(z) + "ms" == "0ms"
  {
  }

  // ---------------------------------------------------------------------------
  // getNext(int)

  /** `getNext(int)` on the list `keys`: the name after position `index`. The test
      `(index + 1) < keys.size()` is in `int` arithmetic, and `keys.get` throws
      for a negative position. */
  function Next(keys: seq<string>, index: int): (r: Result<Option<string>>)
    requires IsInt(index) && |keys| <= INT_MAX
    ensures r.Throws? <==> index < -1 || index == INT_MAX
    ensures r.Throws? ==> r.exc == IndexOutOfBounds
    ensures (r.Ok? && r.value.Some?) <==> 0 <= index && index + 1 < |keys|
    ensures r.Ok? && r.value.Some? ==> r.value.value == keys[index + 1]
  {
    var n := WrapInt(index + 1);
    if n < |keys| && index != -1 then
      if n < 0 then Throws(IndexOutOfBounds) else Ok(Some(keys[n]))
    else Ok(None)
  }

  // ---------------------------------------------------------------------------
  // The stopwatch

  class Stopwatch {
    /** The time of each timer, in milliseconds. */
    var timers: map<string, int>
    /** The names in the order `set` was called with them, one entry per call. */
    var keys: seq<string>

    /** Every timer's name is in the list, its time is a non-negative `long`,
        and the list fits in a Java list. */
    ghost predicate Valid()
      reads this
    {
      |keys| <= INT_MAX
      && forall name :: name in timers ==> name in keys && 0 <= timers[name] <= LONG_MAX
    }

    /** `new Stopwatch()`: no timers. */
    constructor ()
      ensures Valid() && timers == map[] && keys == []
    {
      timers := map[];
      keys := [];
    }

    /** `remove(name)`: forgets the timer and the first occurrence of its name. */
    method Remove(name: string)
      requires Valid()
      modifies this
      ensures Valid()
      ensures timers == old(timers) - {name}
      ensures keys == RemoveFirst(old(keys), name)
    {
      RemoveFirstKeeps(keys, name);
      timers := timers - {name};
      keys := RemoveFirst(keys, name);
    }

    /** `set(name, time)`: a negative time throws IndexOutOfBoundsException;
        otherwise the timer gets the time and the name is appended to the list,
        even when it is there already. */
    method Set(name: string, time: int) returns (o: Outcome)
      requires Valid() && IsLong(time) && |keys| < INT_MAX
      modifies this
      ensures Valid()
      ensures time < 0 ==> o == Fail(IndexOutOfBounds) && timers == old(timers) && keys == old(keys)
      ensures time >= 0 ==> o == Pass && timers == old(timers)[name := time] && keys == old(keys) + [name]
      ensures time >= 0 ==> Get(name) == time
    {
      if time < 0 {
        return Fail(IndexOutOfBounds);
      }
      timers := timers[name := time];
      keys := keys + [name];
      o := Pass;
    }

    /** `get(name)`: the timer's time, or 0 for a name that is not set. */
    function Get(name: string): (t: int)
      requires Valid()
      reads this
      ensures 0 <= t <= LONG_MAX
      ensures name !in timers ==> t == 0
    {
      if name in timers then timers[name] else 0
    }

    /** `matches(timer, value)`: the timer is set and has that time. */
    function MatchesValue(timer: string, value: int): (b: bool)
      requires Valid()
      reads this
      ensures b <==> timer in timers && timers[timer] == value
    {
      Get(timer) == value && timer in timers
    }

    /** `matches(timer1, timer2)`: both timers are set and have the same time. */
    function MatchesTimer(timer1: string, timer2: string): (b: bool)
      requires Valid()
      reads this
      ensures b <==> timer1 in timers && timer2 in timers && timers[timer1] == timers[timer2]
    {
      Get(timer1) == Get(timer2) && timer1 in timers && timer2 in timers
    }

    /** `compareMs(name1, name2)`: the distance between two timers, an unset one counting as 0. */
    function CompareMsTimers(name1: string, name2: string): (d: int)
      requires Valid()
      reads this
      ensures 0 <= d <= LONG_MAX
      ensures d == if Get(name1) > Get(name2) then Get(name1) - Get(name2) else Get(name2) - Get(name1)
    {
      CompareMsDistance(Get(name1), Get(name2));
      CompareMs(Get(name1), Get(name2))
    }

    /** `compare(name1, name2, args)`: that distance written by `msToString`. */
    function CompareTimers(name1: string, name2: string, args: int): (r: Result<string>)
      requires Valid()
      reads this
      ensures r == Compare(Get(name2), Get(name1), args)
      ensures r.Throws? <==> args != -1 && (args < 1 || args > Kbdx.MAX_ARGS)
      ensures r == Kbdx.MsTextFixed(CompareMsTimers(name1, name2), args)
    {
      Compare(Get(name1), Get(name2), args)
    }

    /** `getNext(name)`: the name after the first occurrence of `name`, or `null`
        when `name` is not in the list or is last. */
    function GetNext(name: string): (r: Option<string>)
      requires Valid()
      reads this
      ensures r.None? <==> name !in keys || IndexOf(keys, name) == |keys| - 1
      ensures r.Some? ==> r.value == keys[IndexOf(keys, name) + 1]
    {
      Next(keys, IndexOf(keys, name)).value
    }

    /** `compareNext(name, args, pattern)`: "" when there is no next timer;
        otherwise the pattern with `%A%`, then `%B%`, then `%C%` replaced. The
        difference is computed, and may throw, after the first two replacements. */
    function CompareNext(name: string, args: int, pattern: string): (r: Result<string>)
      requires Valid()
      reads this
      ensures GetNext(name).None? ==> r == Ok("")
      ensures GetNext(name).Some? ==> (r.Throws? <==> args != -1 && (args < 1 || args > Kbdx.MAX_ARGS))
      ensures r.Throws? ==> r.exc == IndexOutOfBounds
    {
      match GetNext(name)
      case None => Ok("")
      case Some(next) =>
        var named := Replace(Replace(pattern, "%A%", name), "%B%", next);
        match CompareTimers(name, next, args)
        case Throws(e) => Throws(e)
        case Ok(text) => Ok(Replace(named, "%C%", text))
    }

    /** `compareNext(name)`: as written, with `args` 0, which `msToString` rejects. */
    function CompareNextDefault(name: string): (r: Result<string>)
      requires Valid()
      reads this
      ensures r == if GetNext(name).None? then Ok("") else Throws(IndexOutOfBounds)
    {
      CompareNext(name, 0, DEFAULT_PATTERN)
    }

    /** `compareNext(name)` with `args` -1, the default of `compare`: all components. */
    function CompareNextDefaultFixed(name: string): Result<string>
      requires Valid()
      reads this
    {
      CompareNext(name, -1, DEFAULT_PATTERN)
    }

    /** What the builder of `compareNextAll` holds after the names `ks`: the
        line of each followed by "\n", or the first exception. */
    function Lines(ks: seq<string>, args: int, pattern: string): Result<string>
      requires Valid()
      reads this
      decreases |ks|
    {
      if ks == [] then Ok("")
      else
        match Lines(ks[..|ks| - 1], args, pattern)
        case Throws(e) => Throws(e)
        case Ok(before) =>
          match CompareNext(ks[|ks| - 1], args, pattern)
          case Throws(e) => Throws(e)
          case Ok(line) => Ok(before + line + "\n")
    }

    /** `compareNextAll(args, pattern)`: the lines of all names in list order,
        less the last two characters; fewer than two characters throw
        StringIndexOutOfBoundsException. */
    function CompareNextAllText(args: int, pattern: string): Result<string>
      requires Valid()
      reads this
    {
      match Lines(keys, args, pattern)
      case Throws(e) => Throws(e)
      case Ok(s) => if |s| < 2 then Throws(StringIndexOutOfBounds) else Ok(s[..|s| - 2])
    }

    /** `compareNextAll(args, pattern)`: appends the line of each name and a
        newline to a builder, then cuts off the last two characters. */
    method CompareNextAll(args: int, pattern: string) returns (r: Result<string>)
      requires Valid()
      ensures r == CompareNextAllText(args, pattern)
    {
      var ret := "";
      var i := 0;
      while i < |keys|
        invariant 0 <= i <= |keys|
        invariant Lines(keys[..i], args, pattern) == Ok(ret)
      {
        var line := CompareNext(keys[i], args, pattern);
        LinesStep(keys, i, args, pattern, ret, line);
        if line.Throws? {
          LinesThrows(keys, i + 1, args, pattern);
          return Throws(line.exc);
        }
        ret := ret + line.value + "\n";
        i := i + 1;
      }
      assert keys[..i] == keys;
      if |ret| < 2 {
        return Throws(StringIndexOutOfBounds);
      }
      r := Ok(ret[..|ret| - 2]);
    }

    /** `compareNextAll()`: as written, with `args` 0. */
    function CompareNextAllDefault(): (r: Result<string>)
      requires Valid()
      reads this
      ensures r == Throws(if |keys| >= 2 then IndexOutOfBounds else StringIndexOutOfBounds)
    {
      CompareNextAllDefaultThrows();
      CompareNextAllText(0, DEFAULT_PATTERN)
    }

    /** `compareNextAll()` with `args` -1. */
    function CompareNextAllDefaultFixed(): Result<string>
      requires Valid()
      reads this
    {
      CompareNextAllText(-1, DEFAULT_PATTERN)
    }

    /** `compareNext(name)` as written passes `args` 0: whenever there is a next
        timer, `msToString` rejects it with IndexOutOfBoundsException. */
    lemma {:induction false} CompareNextDefaultThrows(name: string)
      requires Valid()
      ensures GetNext(name).None? ==> CompareNextDefault(name) == Ok("")
      ensures GetNext(name).Some? ==> CompareNextDefault(name) == Throws(IndexOutOfBounds)
    {
      if GetNext(name).Some? {
        Kbdx.MsTextArgs(CompareMs(Get(name), Get(GetNext(name).value)), 0);
      }
    }

    /** With `args` -1, `compareNext(name)` gives "<name> => <next> took <all components>". */
    lemma {:induction false} CompareNextDefaultFixedText(name: string, next: string)
      requires Valid() && GetNext(name) == Some(next)
      requires Lacks(name, '%') && Lacks(next, '%')
      ensures Kbdx.MsText(CompareMsTimers(name, next), 6).Ok?
      ensures CompareNextDefaultFixed(name)
        == Ok(name + " => " + next + " took " + Kbdx.MsText(CompareMsTimers(name, next), 6).value)
    {
      Kbdx.MsTextArgs(CompareMsTimers(name, next), -1);
      DefaultPatternText(name, next, Kbdx.MsText(CompareMsTimers(name, next), 6).value);
    }

    /** With at most one name in the list the builder holds fewer than two
        characters, and cutting two off throws StringIndexOutOfBoundsException. */
    lemma {:induction false} FewNamesThrow(args: int, pattern: string)
      requires Valid() && |keys| <= 1
      ensures CompareNextAllText(args, pattern) == Throws(StringIndexOutOfBounds)
    {
      if |keys| == 1 {
        assert keys[..0] == [];
        assert GetNext(keys[0]).None?;
        assert Lines(keys, args, pattern) == Ok("" + "" + "\n");
      }
    }

    /** `compareNextAll()` as written always throws: IndexOutOfBoundsException
        from the first name once there are two names, StringIndexOutOfBoundsException
        before that. */
    lemma {:induction false} CompareNextAllDefaultThrows()
      requires Valid()
      ensures CompareNextAllText(0, DEFAULT_PATTERN)
        == Throws(if |keys| >= 2 then IndexOutOfBounds else StringIndexOutOfBounds)
    {
      if |keys| >= 2 {
        assert IndexOf(keys, keys[0]) == 0;
        assert GetNext(keys[0]).Some?;
        CompareNextDefaultThrows(keys[0]);
        assert keys[..1][..0] == [];
        assert Lines(keys[..1], 0, DEFAULT_PATTERN) == Throws(IndexOutOfBounds);
        LinesThrows(keys, 1, 0, DEFAULT_PATTERN);
      } else {
        FewNamesThrow(0, DEFAULT_PATTERN);
      }
    }

    /** With `args` -1 no line of the report throws. */
    lemma {:induction false} LinesFixedOk(ks: seq<string>)
      requires Valid()
      ensures Lines(ks, -1, DEFAULT_PATTERN).Ok?
      decreases |ks|
    {
      if ks != [] {
        LinesFixedOk(ks[..|ks| - 1]);
        var name := ks[|ks| - 1];
        if GetNext(name).Some? {
          Kbdx.MsTextArgs(CompareMs(Get(name), Get(GetNext(name).value)), -1);
        }
      }
    }

    /** `compareNextAll()` with `args` -1 succeeds as soon as there are two names;
        when the last name occurs only once, the text is the lines of the other
        names, each followed by a newline except the last. */
    lemma {:induction false} CompareNextAllDefaultFixedOk()
      requires Valid() && |keys| >= 2
      ensures CompareNextAllDefaultFixed().Ok?
      ensures keys[|keys| - 1] !in keys[..|keys| - 1] ==>
        CompareNextAllDefaultFixed().value + "\n" == Lines(keys[..|keys| - 1], -1, DEFAULT_PATTERN).value
    {
      FixedReportOk();
      FixedReportLastOnce();
    }

    /** When the last name occurs once, the report and a newline are the lines
        of the names before it. */
    lemma {:induction false} FixedReportLastOnce()
      requires Valid() && |keys| >= 2
      ensures keys[|keys| - 1] !in keys[..|keys| - 1] ==>
        CompareNextAllDefaultFixed().Ok?
        && CompareNextAllDefaultFixed().value + "\n" == Lines(keys[..|keys| - 1], -1, DEFAULT_PATTERN).value
    {
      var init := keys[..|keys| - 1];
      if keys[|keys| - 1] !in init {
        LinesFixedOk(init);
        FixedReportText(Lines(init, -1, DEFAULT_PATTERN).value);
      }
    }

    /** With `args` -1 and two names the builder holds at least two characters
        and no line throws. */
    lemma {:induction false} FixedReportOk()
      requires Valid() && |keys| >= 2
      ensures CompareNextAllDefaultFixed().Ok?
    {
      LinesFixedOk(keys);
      var init := keys[..|keys| - 1];
      LinesFixedOk(init);
      LinesEndInNewline(init, -1, DEFAULT_PATTERN);
    }

    /** The report for `args` -1 when the last name occurs once, given the
        lines of the names before it. */
    lemma {:induction false} FixedReportText(before: string)
      requires Valid() && |keys| >= 2 && keys[|keys| - 1] !in keys[..|keys| - 1]
      requires Lines(keys[..|keys| - 1], -1, DEFAULT_PATTERN) == Ok(before)
      ensures CompareNextAllDefaultFixed() == Ok(before[..|before| - 1])
      ensures |before| >= 1 && before[..|before| - 1] + "\n" == before
    {
      CompareNextAllLines(-1, DEFAULT_PATTERN, before);
      RestoreNewline(before);
    }

    /** Cutting off a final newline and appending it again gives the text back. */
    static lemma RestoreNewline(s: string)
      requires |s| >= 1 && s[|s| - 1] == '\n'
      ensures s[..|s| - 1] + "\n" == s
    {
      assert (s[..|s| - 1] + "\n")[|s| - 1] == s[|s| - 1];
    }

    /** When the last name occurs only once, its line is empty, so
        `compareNextAll` is the lines of the names before it, each ended by a
        newline, less the final newline. */
    lemma {:induction false} CompareNextAllLines(args: int, pattern: string, before: string)
      requires Valid() && |keys| >= 2 && keys[|keys| - 1] !in keys[..|keys| - 1]
      requires Lines(keys[..|keys| - 1], args, pattern) == Ok(before)
      ensures |before| >= 1 && before[|before| - 1] == '\n'
      ensures CompareNextAllText(args, pattern) == Ok(before[..|before| - 1])
    {
      var n := |keys| - 1;
      LastHasNoNext(n, args, pattern);
      LinesStep(keys, n, args, pattern, before, Ok(""));
      assert keys[..n + 1] == keys;
      var all := before + "" + "\n";
      assert Lines(keys, args, pattern) == Ok(all);
      LinesEndInNewline(keys[..n], args, pattern);
      CutTwo(before);
      assert CompareNextAllText(args, pattern) == Ok(all[..|all| - 2]);
    }

    /** The name at `n`, absent from the names before it and last in the list,
        has no next name, so its line is empty. */
    lemma {:induction false} LastHasNoNext(n: int, args: int, pattern: string)
      requires Valid() && n == |keys| - 1 >= 0 && keys[n] !in keys[..n]
      ensures CompareNext(keys[n], args, pattern) == Ok("")
    {
      assert IndexOf(keys, keys[n]) == n by {
        forall j | 0 <= j < n
          ensures keys[j] != keys[n]
        {
          assert keys[j] == keys[..n][j];
        }
      }
    }

    /** The builder of one more name: the line and a newline appended, or its exception. */
    lemma {:induction false} LinesStep(ks: seq<string>, i: int, args: int, pattern: string, ret: string, line: Result<string>)
      requires Valid() && 0 <= i < |ks| && Lines(ks[..i], args, pattern) == Ok(ret)
      requires line == CompareNext(ks[i], args, pattern)
      ensures Lines(ks[..i + 1], args, pattern)
        == if line.Throws? then Throws(line.exc) else Ok(ret + line.value + "\n")
    {
      assert ks[..i + 1][..i] == ks[..i];
    }

    /** The builder after at least one name ends in a newline. */
    lemma {:induction false} LinesEndInNewline(ks: seq<string>, args: int, pattern: string)
      requires Valid() && |ks| >= 1 && Lines(ks, args, pattern).Ok?
      ensures var s := Lines(ks, args, pattern).value; |s| >= 1 && s[|s| - 1] == '\n'
    {
    }

    /** Once the builder holds an exception, so does every longer prefix of the list. */
    lemma {:induction false} LinesThrows(ks: seq<string>, n: int, args: int, pattern: string)
      requires Valid() && 0 < n <= |ks| && Lines(ks[..n], args, pattern).Throws?
      ensures Lines(ks, args, pattern) == Lines(ks[..n], args, pattern)
      decreases |ks|
    {
      if n < |ks| {
        var init := ks[..|ks| - 1];
        assert init[..n] == ks[..n];
        LinesThrows(init, n, args, pattern);
      } else {
        assert ks[..n] == ks;
      }
    }
  }

  // ---------------------------------------------------------------------------
  // The list of names

  /** `remove` leaves every other name where it was, in or out of the list. */
  lemma {:induction false} RemoveFirstKeeps(s: seq<string>, x: string)
    ensures forall y :: y != x ==> (y in RemoveFirst(s, x) <==> y in s)
  {
    forall y | y != x
      ensures y in RemoveFirst(s, x) <==> y in s
    {
      assert multiset(RemoveFirst(s, x))[y] == multiset(s)[y];
    }
  }

  /** `remove` cuts the list at the first occurrence of `x`, keeping the order of the rest. */
  lemma {:induction false} RemoveFirstAt(s: seq<string>, x: string)
    ensures x !in s ==> RemoveFirst(s, x) == s
    ensures x in s ==> RemoveFirst(s, x) == s[..IndexOf(s, x)] + s[IndexOf(s, x) + 1..]
    decreases |s|
  {
    if s == [] {
    } else if s[0] == x {
      assert s[..0] + s[1..] == s[1..];
    } else {
      var t := s[1..];
      RemoveFirstAt(t, x);
      assert RemoveFirst(s, x) == [s[0]] + RemoveFirst(t, x);
      if x in t {
        var k := IndexOf(t, x);
        assert IndexOf(s, x) == k + 1;
        ConsCut(s, k);
      } else {
        assert x !in s by {
          assert s == [s[0]] + t;
        }
        assert [s[0]] + t == s;
      }
    }
  }

  /** Cutting two characters off a builder that ends in an empty line and a
      newline leaves the text before, less its own last character. */
  lemma {:induction false} CutTwo(before: string)
    requires |before| >= 1
    ensures |before + "" + "\n"| >= 2
    ensures (before + "" + "\n")[..|before + "" + "\n"| - 2] == before[..|before| - 1]
  {
    assert before + "" + "\n" == before + "\n";
  }

  /** Putting the head back in front of a list cut at `k` of its tail. */
  lemma ConsCut(s: seq<string>, k: nat)
    requires k + 1 < |s|
    ensures [s[0]] + (s[1..][..k] + s[1..][k + 1..]) == s[..k + 1] + s[k + 2..]
  {
    assert s[..k + 1] == [s[0]] + s[1..][..k];
    assert s[k + 2..] == s[1..][k + 1..];
  }

  /** A name set again after it was removed, and found in the list at most once
      before, is last: `getNext` of it is `null`, and it is the next name of the
      name before it. */
  lemma {:induction false} SetAfterRemoveIsLast(keys: seq<string>, name: string)
    requires multiset(keys)[name] <= 1 && |keys| < INT_MAX
    ensures var ks := RemoveFirst(keys, name) + [name];
      IndexOf(ks, name) == |ks| - 1
      && Next(ks, IndexOf(ks, name)) == Ok(None)
      && (|ks| >= 2 ==> Next(ks, |ks| - 2) == Ok(Some(name)))
  {
    var rest := RemoveFirst(keys, name);
    var ks := rest + [name];
    assert multiset(rest)[name] == 0;
    assert name !in rest;
    assert |multiset(rest)| <= |multiset(keys)|;
    assert ks[|ks| - 1] == name;
    forall j | 0 <= j < |ks| - 1
      ensures ks[j] != name
    {
      assert ks[j] == rest[j];
    }
  }

  // ---------------------------------------------------------------------------
  // Replacing in the pattern

  /** A prefix without the first character of `t` is copied unchanged. */
  lemma {:induction false} ReplaceSkip(a: string, b: string, t: string, r: string)
    requires |t| > 0 && Lacks(a, t[0])
    ensures Replace(a + b, t, r) == a + Replace(b, t, r)
    decreases |a|
  {
    if a != [] {
      var s := a + b;
      if |s| < |t| {
        ReplaceShort(s, t, r);
        ReplaceShort(b, t, r);
      } else {
        assert s[..|t|][0] == a[0] != t[0];
        assert s[1..] == a[1..] + b;
        ReplaceSkip(a[1..], b, t, r);
        calc {
          Replace(s, t, r);
          [a[0]] + Replace(a[1..] + b, t, r);
          [a[0]] + (a[1..] + Replace(b, t, r));
          { assert a == [a[0]] + a[1..]; }
          a + Replace(b, t, r);
        }
      }
    } else {
      assert a + b == b;
    }
  }

  lemma {:induction false} ReplaceShort(s: string, t: string, r: string)
    requires 0 < |t| && |s| < |t|
    ensures Replace(s, t, r) == s
  {
  }

  /** An occurrence of `t` at the start is replaced. */
  lemma {:induction false} ReplaceHead(t: string, b: string, r: string)
    requires |t| > 0
    ensures Replace(t + b, t, r) == r + Replace(b, t, r)
  {
    assert (t + b)[..|t|] == t;
    assert (t + b)[|t|..] == b;
  }

  /** A placeholder of the pattern: `%`, a letter, `%`. */
  predicate Placeholder(p: string, letter: char) {
    |p| == 3 && p[0] == '%' && p[1] == letter && p[2] == '%'
  }

  /** The default pattern, for names without a '%': "<name> => <next> took <text>". */
  lemma {:induction false} DefaultPatternText(name: string, next: string, text: string)
    requires Lacks(name, '%') && Lacks(next, '%')
    ensures Replace(Replace(Replace(DEFAULT_PATTERN, "%A%", name), "%B%", next), "%C%", text)
      == name + " => " + next + " took " + text
  {
    var arrow, took := " => ", " took ";
    assert DEFAULT_PATTERN == "%A%" + (arrow + ("%B%" + (took + "%C%")));
    PatternSteps("%A%", "%B%", "%C%", arrow, took, name, next, text);
    Regroup(name, arrow, next, took, text);
  }

  /** Concatenation regrouped from the right to the left. */
  lemma {:induction false} Regroup(a: string, b: string, c: string, d: string, e: string)
    ensures a + (b + (c + (d + e))) == a + b + c + d + e
  {
    assert a + (b + (c + (d + e))) == (a + b) + (c + (d + e));
  }

  /** The three replacements on `a arrow b took c`, with `a`, `b`, `c` the
      placeholders `%A%`, `%B%`, `%C%` and no '%' in the literal text between them. */
  lemma {:induction false} PatternSteps(a: string, b: string, c: string, arrow: string, took: string,
                                        name: string, next: string, text: string)
    requires Placeholder(a, 'A') && Placeholder(b, 'B') && Placeholder(c, 'C')
    requires Lacks(arrow, '%') && Lacks(took, '%') && |took| > 0 && took[0] == ' '
    requires Lacks(name, '%') && Lacks(next, '%')
    ensures Replace(Replace(Replace(a + (arrow + (b + (took + c))), a, name), b, next), c, text)
      == name + (arrow + (next + (took + text)))
  {
    PatternFirst(a, b, c, arrow, took, name);
    PatternSecond(b, c, arrow, took, name, next);
    PatternThird(c, arrow, took, name, next, text);
  }

  lemma {:induction false} PatternFirst(a: string, b: string, c: string, arrow: string, took: string, name: string)
    requires Placeholder(a, 'A') && Placeholder(b, 'B') && Placeholder(c, 'C')
    requires Lacks(arrow, '%') && Lacks(took, '%') && |took| > 0 && took[0] == ' '
    ensures Replace(a + (arrow + (b + (took + c))), a, name) == name + (arrow + (b + (took + c)))
  {
    var tail := took + c;
    var rest := arrow + (b + tail);
    ReplaceShort("", a, name);
    ReplaceOther(c, "", a, name);
    assert c + "" == c;
    ReplaceSkip(took, c, a, name);
    assert Replace(tail, a, name) == tail;
    ReplaceOther(b, tail, a, name);
    ReplaceSkip(arrow, b + tail, a, name);
    assert Replace(rest, a, name) == rest;
    ReplaceHead(a, rest, name);
  }

  lemma {:induction false} PatternSecond(b: string, c: string, arrow: string, took: string, name: string, next: string)
    requires Placeholder(b, 'B') && Placeholder(c, 'C')
    requires Lacks(arrow, '%') && Lacks(took, '%') && |took| > 0 && took[0] == ' '
    requires Lacks(name, '%')
    ensures Replace(name + (arrow + (b + (took + c))), b, next) == name + (arrow + (next + (took + c)))
  {
    var tail := took + c;
    ReplaceShort("", b, next);
    ReplaceOther(c, "", b, next);
    assert c + "" == c;
    ReplaceSkip(took, c, b, next);
    assert Replace(tail, b, next) == tail;
    ReplaceHead(b, tail, next);
    ReplaceSkip(arrow, b + tail, b, next);
    ReplaceSkip(name, arrow + (b + tail), b, next);
  }

  lemma {:induction false} PatternThird(c: string, arrow: string, took: string, name: string, next: string, text: string)
    requires Placeholder(c, 'C')
    requires Lacks(arrow, '%') && Lacks(took, '%')
    requires Lacks(name, '%') && Lacks(next, '%')
    ensures Replace(name + (arrow + (next + (took + c))), c, text) == name + (arrow + (next + (took + text)))
  {
    ReplaceShort("", c, text);
    ReplaceHead(c, "", text);
    assert c + "" == c;
    assert text + "" == text;
    ReplaceSkip(took, c, c, text);
    ReplaceSkip(next, took + c, c, text);
    ReplaceSkip(arrow, next + (took + c), c, text);
    ReplaceSkip(name, arrow + (next + (took + c)), c, text);
  }

  /** A three-character placeholder is not mistaken for another one, provided
      what follows does not complete an occurrence of the other. */
  lemma {:induction false} ReplaceOther(u: string, b: string, t: string, r: string)
    requires |u| == 3 && |t| == 3 && u[0] == t[0] && u[2] == t[2]
    requires u[1] != t[1] && u[1] != t[0]
    requires b == [] || b[0] != t[1]
    ensures Replace(u + b, t, r) == u + Replace(b, t, r)
  {
    var s := u + b;
    assert s[..3] != t by {
      assert s[..3][1] == u[1];
    }
    assert s[1..] == [u[1]] + ([u[2]] + b);
    ReplaceSkip([u[1]], [u[2]] + b, t, r);
    var c := [u[2]] + b;
    if |c| < 3 {
      ReplaceShort(c, t, r);
      ReplaceShort(b, t, r);
    } else {
      assert c[..3] != t by {
        assert c[..3][1] == b[0];
      }
      assert c[1..] == b;
    }
  }
}
