/** The `Time` object: a duration kept as the two `long` fields `millis` and
    `offset`, whose value is `millis - offset`. The arithmetic wraps around as
    Java's `long` arithmetic does. */
module TimeValue {
  import opened JavaLang
  import opened TimeUnits
  import opened TimeText

  class Time {
    var millis: int
    var offset: int

    /** Both fields hold `long` values. */
    ghost predicate Valid()
      reads this
    {
      IsLong(millis) && IsLong(offset)
    }

    /** `Time(long millis)`; the offset starts at 0. */
    constructor (ms: int)
      requires IsLong(ms)
      ensures Valid() && millis == ms && offset == 0
    {
      millis := ms;
      offset := 0;
    }

    /** `Time()`: no time set. */
    constructor Zero()
      ensures Valid() && millis == 0 && offset == 0
    {
      millis := 0;
      offset := 0;
    }

    /** `Time(long amount, Unit unit)`: `amount * unit.scale` milliseconds. */
    constructor OfAmount(amount: int, u: Unit)
      requires IsLong(amount)
      ensures Valid() && millis == WrapLong(amount * Scale(u)) && offset == 0
    {
      millis := WrapLong(amount * Scale(u));
      offset := 0;
    }

    /** `Time(String time)`: the parsed text, or the exception `parse` throws. */
    static method OfText(s: string, dbl: (string, int) -> int) returns (r: Result<Time>)
      ensures r.Ok? <==> ParseWith(s, dbl, IntCast).Ok?
      ensures r.Throws? ==> r.exc == ParseWith(s, dbl, IntCast).exc
      ensures r.Ok? ==> fresh(r.value) && r.value.Valid()
      ensures r.Ok? ==> r.value.millis == ParseWith(s, dbl, IntCast).value && r.value.offset == 0
    {
      var p := Parse(s, dbl);
      if p.Throws? {
        return Throws(p.exc);
      }
      var t := new Time(p.value);
      return Ok(t);
    }

    /** `Time(Time... parts)`: starts at 0 and adds the value of every part
        that is not null, in order. */
    constructor OfParts(parts: seq<Time?>)
      ensures Valid() && millis == SumValues(parts, 0) && offset == 0
    {
      var sum := 0;
      for k := 0 to |parts|
        invariant IsLong(sum)
        invariant SumValues(parts[k..], sum) == SumValues(parts, 0)
      {
        assert parts[k..][1..] == parts[k + 1..];
        if parts[k] != null {
          sum := WrapLong(sum + parts[k].CalculateMillis());
        }
      }
      millis := sum;
      offset := 0;
    }

    /** `calculateMillis()`: the time measured from the offset. */
    function CalculateMillis(): (r: int)
      reads this
      ensures IsLong(r)
      ensures Valid() && offset == 0 ==> r == millis
      ensures Valid() && offset == millis ==> r == 0
    {
      WrapLong(millis - offset)
    }

    /** `to(unit)`: the whole number of `unit`s in the time, truncated toward zero. */
    function To(u: Unit): (r: int)
      reads this
      ensures CalculateMillis() >= 0 ==> 0 <= r * Scale(u) <= CalculateMillis() < (r + 1) * Scale(u)
      ensures CalculateMillis() <= 0 ==> (r - 1) * Scale(u) < CalculateMillis() <= r * Scale(u) <= 0
    {
      JDiv(CalculateMillis(), Scale(u))
    }

    /** `equals(o)`: another `Time` with the same `calculateMillis()`, whatever the offsets. */
    predicate Equals(o: Time?): (b: bool)
      reads this, o
      ensures b ==> o != null
      ensures o == this ==> b
      ensures o != null && o.millis - o.offset == millis - offset ==> b
    {
      o != null && o.CalculateMillis() == CalculateMillis()
    }

    /** `strictEquals(o)`: another `Time` with the same `millis` and the same `offset`. */
    predicate StrictEquals(o: Time?): (b: bool)
      reads this, o
      ensures o == this ==> b
      ensures b ==> Equals(o)
    {
      o != null && o.millis == millis && o.offset == offset
    }

    /** `add(long millis)`. */
    method Add(x: int)
      requires Valid() && IsLong(x)
      modifies this
      ensures millis == WrapLong(old(millis) + x) && offset == old(offset)
      ensures Valid()
    {
      millis := WrapLong(millis + x);
    }

    /** `add(long amount, Unit unit)`. */
    method AddAmount(amount: int, u: Unit)
      requires Valid() && IsLong(amount)
      modifies this
      ensures millis == WrapLong(old(millis) + WrapLong(amount * Scale(u))) && offset == old(offset)
      ensures Valid()
    {
      Add(WrapLong(amount * Scale(u)));
    }

    /** `add(Time t)`: adds `t.calculateMillis()`, read before the update (`t` may be this object). */
    method AddTime(t: Time)
      requires Valid()
      modifies this
      ensures millis == WrapLong(old(millis) + old(t.CalculateMillis())) && offset == old(offset)
      ensures Valid()
    {
      Add(t.CalculateMillis());
    }

    /** `subtract(long millis)`. */
    method Subtract(x: int)
      requires Valid() && IsLong(x)
      modifies this
      ensures millis == WrapLong(old(millis) - x) && offset == old(offset)
      ensures Valid()
    {
      millis := WrapLong(millis - x);
    }

    /** `subtract(long amount, Unit unit)`. */
    method SubtractAmount(amount: int, u: Unit)
      requires Valid() && IsLong(amount)
      modifies this
      ensures millis == WrapLong(old(millis) - WrapLong(amount * Scale(u))) && offset == old(offset)
      ensures Valid()
    {
      Subtract(WrapLong(amount * Scale(u)));
    }

    /** `subtract(Time t)`. */
    method SubtractTime(t: Time)
      requires Valid()
      modifies this
      ensures millis == WrapLong(old(millis) - old(t.CalculateMillis())) && offset == old(offset)
      ensures Valid()
    {
      Subtract(t.CalculateMillis());
    }

    /** `set(long millis)`. */
    method Set(x: int)
      requires Valid() && IsLong(x)
      modifies this
      ensures millis == x && offset == old(offset)
      ensures Valid()
    {
      millis := x;
    }

    /** `set(long amount, Unit unit)`. */
    method SetAmount(amount: int, u: Unit)
      requires Valid() && IsLong(amount)
      modifies this
      ensures millis == WrapLong(amount * Scale(u)) && offset == old(offset)
      ensures Valid()
    {
      Set(WrapLong(amount * Scale(u)));
    }

    /** `set(Time t)`. */
    method SetTime(t: Time)
      requires Valid()
      modifies this
      ensures millis == old(t.CalculateMillis()) && offset == old(offset)
      ensures Valid()
    {
      Set(t.CalculateMillis());
    }

    /** `offset(long millis)`. */
    method SetOffset(x: int)
      requires Valid() && IsLong(x)
      modifies this
      ensures offset == x && millis == old(millis)
      ensures Valid()
    {
      offset := x;
    }

    /** `offset()`: the offset becomes the current time, so the value becomes 0. */
    method OffsetSelf()
      requires Valid()
      modifies this
      ensures offset == old(millis) && millis == old(millis)
      ensures Valid() && CalculateMillis() == 0
    {
      SetOffset(millis);
    }

    /** `offset(long amount, Unit unit)`. */
    method OffsetAmount(amount: int, u: Unit)
      requires Valid() && IsLong(amount)
      modifies this
      ensures offset == WrapLong(amount * Scale(u)) && millis == old(millis)
      ensures Valid()
    {
      SetOffset(WrapLong(amount * Scale(u)));
    }

    /** `offset(Time t)`. */
    method OffsetTime(t: Time)
      requires Valid()
      modifies this
      ensures offset == old(t.CalculateMillis()) && millis == old(millis)
      ensures Valid()
    {
      SetOffset(t.CalculateMillis());
    }

    /** `toString(min, max, elems, showEmpty, useShortenings, predelim, postdelim)`:
        walks the bands from `max` down to `min`, printing the quotient of each band
        that has a unit and keeping the remainder for the next. A `min` of
        `Integer.MIN_VALUE` is excluded: `i--` would wrap and the loop would not end. */
    method ToString(min: int, max: int, elems: int, showEmpty: bool, useShortenings: bool,
                    predelim: Option<string>, postdelim: Option<string>) returns (r: Result<string>)
      requires INT_MIN < min <= INT_MAX && IsInt(max) && IsInt(elems)
      ensures r == Format(CalculateMillis(), min, max, elems, showEmpty, useShortenings, predelim, postdelim)
    {
      if min > max {
        return Throws(IllegalArgument);
      }
      if elems == 0 {
        return Throws(IllegalArgument);
      }
      var ms := CalculateMillis();
      var pre := if predelim.Some? then predelim.value else if useShortenings then "" else " ";
      var post := if postdelim.Some? then postdelim.value else if useShortenings then " " else ", ";
      var sb := Bands(ms, min, max, elems, showEmpty, useShortenings, pre, post);
      return Ok(sb);
    }

    /** `toString()`: every band from milliseconds to days, empty ones included,
        with shortenings. */
    method ToStringDefault() returns (r: string)
      ensures Format(CalculateMillis(), 0, 4, -1, true, true, None, None) == Ok(r)
    {
      var lo := MinId();
      var hi := MaxId();
      var s := ToString(lo, hi, -1, true, true, None, None);
      r := s.value;
    }

    /** `toString(Unit min, Unit max, elems, showEmpty, useShortenings, predelim, postdelim)`:
        the same, with the bands given by the units' ids. */
    method ToStringUnits(min: Unit, max: Unit, elems: int, showEmpty: bool, useShortenings: bool,
                         predelim: Option<string>, postdelim: Option<string>) returns (r: Result<string>)
      requires IsInt(elems)
      ensures r == Format(CalculateMillis(), Id(min), Id(max), elems, showEmpty, useShortenings, predelim, postdelim)
    {
      r := ToString(Id(min), Id(max), elems, showEmpty, useShortenings, predelim, postdelim);
    }
  }

  /** What `Time(Time... parts)` accumulates: the value of each non-null part
      added to `acc`, with `long` wrap-around. */
  ghost function SumValues(parts: seq<Time?>, acc: int): int
    reads set k | 0 <= k < |parts| && parts[k] != null :: parts[k]
    decreases |parts|
  {
    if parts == [] then acc
    else if parts[0] == null then SumValues(parts[1..], acc)
    else SumValues(parts[1..], WrapLong(acc + parts[0].CalculateMillis()))
  }

  /** The loop of `toString`: `i` runs from `max` down to `min` until `elems`
      components have been printed; `ms` keeps the remainder for the next band. */
  method Bands(ms0: int, min: int, max: int, elems: int, showEmpty: bool, useShortenings: bool,
               pre: string, post: string) returns (sb: string)
    requires INT_MIN < min <= max
    ensures ValidIds(Components(ms0, max, min, elems, showEmpty, 0))
    ensures sb == Render(Components(ms0, max, min, elems, showEmpty, 0), useShortenings, pre, post)
  {
    var added := 0;
    var ms := ms0;
    sb := "";
    ghost var all := Components(ms, max, min, elems, showEmpty, 0);
    ghost var emitted: seq<Component> := [];
    var i := max;
    while i >= min && added != elems
      invariant min - 1 <= i <= max
      invariant ValidIds(emitted) && |emitted| == added
      invariant all == emitted + Components(ms, i, min, elems, showEmpty, added)
      invariant sb == Render(emitted, useShortenings, pre, post)
      invariant |sb| == 0 <==> added == 0
      decreases i - min + 1
    {
      ms, sb, added, emitted := Band(all, emitted, ms, i, min, elems, showEmpty, added, useShortenings, pre, post, sb);
      i := i - 1;
    }
    assert Components(ms, i, min, elems, showEmpty, added) == [];
    assert all == emitted;
  }

  /** One round of the loop in `toString`: band `i` is printed, passed over
      because its quotient is 0, or has no unit. */
  method Band(ghost all: seq<Component>, ghost emitted: seq<Component>, ms: int, i: int, min: int,
              elems: int, showEmpty: bool, added: nat, useShortenings: bool, pre: string, post: string,
              sb: string)
    returns (ms': int, sb': string, added': nat, ghost emitted': seq<Component>)
    requires min <= i && added != elems
    requires ValidIds(emitted) && |emitted| == added
    requires all == emitted + Components(ms, i, min, elems, showEmpty, added)
    requires sb == Render(emitted, useShortenings, pre, post) && (|sb| == 0 <==> added == 0)
    ensures ValidIds(emitted') && |emitted'| == added'
    ensures all == emitted' + Components(ms', i - 1, min, elems, showEmpty, added')
    ensures sb' == Render(emitted', useShortenings, pre, post) && (|sb'| == 0 <==> added' == 0)
  {
    ms', sb', added', emitted' := ms, sb, added, emitted;
    var u := Get(i);
    if u.Some? {
      var num := JDiv(ms, Scale(u.value));
      var rest := JRem(ms, Scale(u.value));
      if num != 0 || showEmpty || (Id(u.value) == min && |sb| == 0) {
        sb' := AppendBand(sb, num, u.value, useShortenings, pre, post);
        PrintedBand(all, emitted, ms, i, min, elems, showEmpty, added, useShortenings, pre, post, sb, sb');
        emitted' := emitted + [Component(num, i)];
        added' := added + 1;
      } else {
        SkippedBand(all, emitted, ms, i, min, elems, showEmpty, added);
      }
      ms' := rest;
    } else {
      NoBand(all, emitted, ms, i, min, elems, showEmpty, added);
    }
  }

  /** The appends of one printed band: `postdelim` unless the builder is empty,
      then the quotient, `predelim` and the unit's shortening, singular or plural. */
  method AppendBand(sb: string, num: int, u: Unit, useShortenings: bool, pre: string, post: string)
    returns (r: string)
    ensures r == (if |sb| != 0 then sb + post else sb)
               + (LongToString(num) + pre + Label(Component(num, Id(u)), useShortenings))
  {
    var info := InfoOf(u);
    DeclaredAttributes(u);
    AliasOfCanonical(u);
    CanonicalInfo(Id(u));
    r := sb;
    if |r| != 0 {
      r := r + post;
    }
    var text := if useShortenings then info.shortening
                else if num == 1 || num == -1 then info.singular else info.plural;
    r := r + (LongToString(num) + pre + text);
  }

  /** One round of the loop in `toString` that prints band `i`: the builder and
      the components printed so far grow by that band's component. */
  lemma {:induction false} PrintedBand(all: seq<Component>, emitted: seq<Component>, ms: int, i: int, min: int,
                                       elems: int, showEmpty: bool, added: nat, useShortenings: bool,
                                       pre: string, post: string, sb: string, sb': string)
    requires ValidIds(emitted) && all == emitted + Components(ms, i, min, elems, showEmpty, added)
    requires sb == Render(emitted, useShortenings, pre, post) && (|sb| == 0 <==> added == 0)
    requires min <= i <= 4 && 0 <= i && added != elems
    requires var num := JDiv(ms, ChainScale(i));
      (num != 0 || showEmpty || (i == min && added == 0))
      && sb' == (if |sb| != 0 then sb + post else sb)
                + (LongToString(num) + pre + Label(Component(num, i), useShortenings))
    ensures var c := Component(JDiv(ms, ChainScale(i)), i);
      ValidIds(emitted + [c])
      && all == (emitted + [c]) + Components(JRem(ms, ChainScale(i)), i - 1, min, elems, showEmpty, added + 1)
      && sb' == Render(emitted + [c], useShortenings, pre, post) && |sb'| != 0
  {
    var c := Component(JDiv(ms, ChainScale(i)), i);
    var later := Components(JRem(ms, ChainScale(i)), i - 1, min, elems, showEmpty, added + 1);
    assert Components(ms, i, min, elems, showEmpty, added) == [c] + later;
    SnocAssoc(all, emitted, c, Components(ms, i, min, elems, showEmpty, added), later);
    RenderSnoc(emitted, c, useShortenings, pre, post);
    assert emitted == [] <==> |sb| == 0;
  }

  /** One round that passes over band `i` because its quotient is 0. */
  lemma {:induction false} SkippedBand(all: seq<Component>, emitted: seq<Component>, ms: int, i: int, min: int,
                                       elems: int, showEmpty: bool, added: nat)
    requires all == emitted + Components(ms, i, min, elems, showEmpty, added)
    requires min <= i <= 4 && 0 <= i && added != elems
    requires !(JDiv(ms, ChainScale(i)) != 0 || showEmpty || (i == min && added == 0))
    ensures all == emitted + Components(JRem(ms, ChainScale(i)), i - 1, min, elems, showEmpty, added)
  {
  }

  /** One round at an id with no unit. */
  lemma {:induction false} NoBand(all: seq<Component>, emitted: seq<Component>, ms: int, i: int, min: int,
                                  elems: int, showEmpty: bool, added: nat)
    requires all == emitted + Components(ms, i, min, elems, showEmpty, added)
    requires min <= i && !(0 <= i <= 4) && added != elems
    ensures all == emitted + Components(ms, i - 1, min, elems, showEmpty, added)
  {
  }

  lemma {:induction false} SnocAssoc(all: seq<Component>, emitted: seq<Component>, c: Component, todo: seq<Component>, later: seq<Component>)
    requires all == emitted + todo && todo == [c] + later
    ensures all == (emitted + [c]) + later
  {
  }

  /** Subtracting what was added restores `millis`, wrap-around included. */
  lemma {:induction false} AddSubtractInverse(m: int, x: int)
    requires IsLong(m)
    ensures WrapLong(WrapLong(m + x) - x) == m
  {
    WrapLongAdd(-x, m + x);
  }

  /** Equal fields give equal values: `strictEquals` implies `equals`. */
  lemma {:induction false} StrictEqualsEquals(t: Time, o: Time?)
    ensures t.StrictEquals(o) ==> t.Equals(o)
  {
  }

  /** `equals` compares values only: two times whose fields differ by the same
      amount are equal, and strictly equal only when their fields agree. */
  lemma {:induction false} EqualsIgnoresOffset(t: Time, o: Time)
    requires t.Valid() && o.Valid() && t.millis - t.offset == o.millis - o.offset
    ensures t.Equals(o)
    ensures t.StrictEquals(o) <==> t.millis == o.millis
  {
  }

  /** `equals` is an equivalence on non-null times. */
  lemma {:induction false} EqualsEquivalence(a: Time, b: Time, c: Time)
    ensures a.Equals(a)
    ensures a.Equals(b) <==> b.Equals(a)
    ensures a.Equals(b) && b.Equals(c) ==> a.Equals(c)
  {
  }

  /** `to` truncates toward zero: `ms(1900).to(S)` is 1 and `ms(-1900).to(S)` is -1. */
  lemma {:induction false} ToTruncates(t: Time)
    requires t.Valid() && t.offset == 0 && (t.millis == 1900 || t.millis == -1900)
    ensures t.To(SECONDS) == (if t.millis == 1900 then 1 else -1)
    ensures t.To(MILLISECONDS) == t.millis
  {
  }

  /** Truncation toward zero is symmetric: opposite times hold opposite numbers of a unit. */
  lemma {:induction false} ToSymmetric(t: Time, o: Time, u: Unit)
    requires t.CalculateMillis() == -o.CalculateMillis()
    ensures t.To(u) == -o.To(u)
  {
    JDivNeg(o.CalculateMillis(), Scale(u));
  }

  /** `Time(toString())` restores a time of zero or more milliseconds. */
  lemma {:induction false} DefaultToStringParses(t: Time, dbl: (string, int) -> int)
    requires t.CalculateMillis() >= 0
    ensures Format(t.CalculateMillis(), 0, 4, -1, true, true, None, None).Ok?
    ensures ParseWith(Format(t.CalculateMillis(), 0, 4, -1, true, true, None, None).value, dbl, IntCast) == Ok(t.CalculateMillis())
  {
    FormatParses(t.CalculateMillis(), 0, 4, true, true, dbl, IntCast);
  }
}
