/** The `Time.Unit` enum: a table of time units built by chaining constructors.
    A base unit is given its scale and id outright; a derived unit multiplies
    its base's scale by an amplifier and takes the next id; an alias copies
    every attribute of its target. */
module TimeUnits {
  import opened JavaLang

  /** The enum constants, in declaration order. */
  datatype Unit =
    | MILLISECONDS | MILLISECOND | MILLIS | MS
    | SECONDS | SECOND | SEC | S
    | MINUTES | MINUTE | MIN | M
    | HOURS | HOUR | H
    | DAYS | DAY | D

  /** The attributes every constant carries. */
  datatype Info = Info(scale: int, scaleId: int, shortening: string, singular: string, plural: string)

  /** `Unit(Unit base, long amplifier, ...)`: scale and id follow from the base. */
  function Derived(base: Info, amplifier: int, shortening: string, singular: string, plural: string): Info {
    Info(base.scale * amplifier, base.scaleId + 1, shortening, singular, plural)
  }

  /** `Unit(Unit copy)`: an alias of another constant. */
  function Alias(copy: Info): Info {
    copy
  }

  /** `Enum.ordinal()`. */
  function Ordinal(u: Unit): nat {
    match u
    case MILLISECONDS => 0  case MILLISECOND => 1  case MILLIS => 2  case MS => 3
    case SECONDS => 4  case SECOND => 5  case SEC => 6  case S => 7
    case MINUTES => 8  case MINUTE => 9  case MIN => 10  case M => 11
    case HOURS => 12  case HOUR => 13  case H => 14
    case DAYS => 15  case DAY => 16  case D => 17
  }

  /** The attributes each constant's declaration gives it. */
  function InfoOf(u: Unit): Info
    decreases Ordinal(u)
  {
    match u
    case MILLISECONDS => Info(1, 0, "ms", "millisecond", "milliseconds")
    case MILLISECOND => Alias(InfoOf(MILLISECONDS))
    case MILLIS => Alias(InfoOf(MILLISECONDS))
    case MS => Alias(InfoOf(MILLISECONDS))
    case SECONDS => Derived(InfoOf(MILLISECONDS), 1000, "s", "second", "seconds")
    case SECOND => Alias(InfoOf(SECONDS))
    case SEC => Alias(InfoOf(SECONDS))
    case S => Alias(InfoOf(SECONDS))
    case MINUTES => Derived(InfoOf(SECONDS), 60, "m", "minute", "minutes")
    case MINUTE => Alias(InfoOf(MINUTES))
    case MIN => Alias(InfoOf(MINUTES))
    case M => Alias(InfoOf(MINUTES))
    case HOURS => Derived(InfoOf(MINUTES), 60, "h", "hour", "hours")
    case HOUR => Alias(InfoOf(HOURS))
    case H => Alias(InfoOf(HOURS))
    case DAYS => Derived(InfoOf(HOURS), 24, "d", "day", "days")
    case DAY => Alias(InfoOf(DAYS))
    case D => Alias(InfoOf(DAYS))
  }

  /** `u.scale_id`: the position of the constant's unit on the chain ms, s, min, h, d.
      `DeclaredAttributes` shows that the declarations yield exactly these ids. */
  function Id(u: Unit): (r: int)
    ensures 0 <= r <= 4
  {
    match u
    case MILLISECONDS | MILLISECOND | MILLIS | MS => 0
    case SECONDS | SECOND | SEC | S => 1
    case MINUTES | MINUTE | MIN | M => 2
    case HOURS | HOUR | H => 3
    case DAYS | DAY | D => 4
  }

  /** `u.scale`: milliseconds per unit. */
  function Scale(u: Unit): int {
    ChainScale(Id(u))
  }

  /** `Enum.name()`. */
  function Name(u: Unit): string {
    match u
    case MILLISECONDS => "MILLISECONDS"  case MILLISECOND => "MILLISECOND"
    case MILLIS => "MILLIS"  case MS => "MS"
    case SECONDS => "SECONDS"  case SECOND => "SECOND"  case SEC => "SEC"  case S => "S"
    case MINUTES => "MINUTES"  case MINUTE => "MINUTE"  case MIN => "MIN"  case M => "M"
    case HOURS => "HOURS"  case HOUR => "HOUR"  case H => "H"
    case DAYS => "DAYS"  case DAY => "DAY"  case D => "D"
  }

  /** `Unit.values()`. */
  function Values(): (vs: seq<Unit>)
    ensures |vs| == 18
    ensures forall i :: 0 <= i < |vs| ==> Ordinal(vs[i]) == i
  {
    [MILLISECONDS, MILLISECOND, MILLIS, MS, SECONDS, SECOND, SEC, S,
     MINUTES, MINUTE, MIN, M, HOURS, HOUR, H, DAYS, DAY, D]
  }

  lemma {:induction false} ValuesListsEveryUnit(u: Unit)
    ensures Values()[Ordinal(u)] == u
  {
  }

  /** The scale of the unit with id `id` in the canonical chain ms, s, min, h, d. */
  function ChainScale(id: int): (s: int)
    requires 0 <= id <= 4
    ensures s >= 1
  {
    [1, 1000, 60000, 3600000, 86400000][id]
  }

  /** Following the constructor chain yields the ids 0..4 with scales
      1, 1000, 60000, 3600000, 86400000: the chain stops at days. */
  lemma {:induction false} DeclaredAttributes(u: Unit)
    ensures InfoOf(u).scaleId == Id(u)
    ensures InfoOf(u).scale == Scale(u)
  {
    AliasOfCanonical(u);
    CanonicalInfo(Id(u));
  }

  /** Constants with the same id are identical in every attribute (aliases copy their
      target), and the scale strictly increases with the id. */
  lemma {:induction false} UnitOrder(u: Unit, v: Unit)
    ensures Id(u) == Id(v) ==> InfoOf(u) == InfoOf(v)
    ensures Id(u) < Id(v) <==> Scale(u) < Scale(v)
  {
    if Id(u) == Id(v) {
      SameIdSameInfo(u, v);
    }
  }

  lemma {:induction false} SameIdSameInfo(u: Unit, v: Unit)
    requires Id(u) == Id(v)
    ensures InfoOf(u) == InfoOf(v)
  {
    CanonicalInfo(Id(u));
    AliasOfCanonical(u);
    AliasOfCanonical(v);
  }

  /** Every constant carries the attributes of the first constant declared with its id. */
  lemma {:induction false} AliasOfCanonical(u: Unit)
    ensures InfoOf(u) == InfoOf(Canonical(Id(u)))
  {
  }

  /** The constant declared first among those with id `id`: the one that carries the plural name. */
  function Canonical(id: int): Unit
    requires 0 <= id <= 4
  {
    [MILLISECONDS, SECONDS, MINUTES, HOURS, DAYS][id]
  }

  /** The constant `Unit.get(scale_id)` finds: the first constant in declaration
      order whose id is `id`, or null when there is none. */
  function UnitWithId(id: int): (r: Option<Unit>)
    ensures r.Some? <==> 0 <= id <= 4
    ensures r.Some? ==> r.value == Canonical(id)
    ensures r.Some? ==> Id(r.value) == id && Scale(r.value) == ChainScale(id)
  {
    var r := FirstWithId(Values(), id);
    GetIsCanonical(id);
    r
  }

  /** `Unit.get(scale_id)`: scans `values()` for the id. */
  method Get(id: int) returns (r: Option<Unit>)
    ensures r == UnitWithId(id)
    ensures r.Some? <==> 0 <= id <= 4
    ensures r.Some? ==> r.value == Canonical(id)
  {
    var vs := Values();
    for i := 0 to |vs|
      invariant FirstWithId(vs[i..], id) == FirstWithId(vs, id)
    {
      assert vs[i..][1..] == vs[i + 1..];
      if Id(vs[i]) == id {
        return Some(vs[i]);
      }
    }
    return None;
  }

  /** Every constant appears in `values()`. */
  lemma {:induction false} ValuesCoverAll()
    ensures forall u :: u in Values()
  {
    forall u: Unit ensures u in Values() {
      ValuesListsEveryUnit(u);
    }
  }

  /** `Unit.max_id()`: the largest id of any constant. */
  method MaxId() returns (r: int)
    ensures forall u :: Id(u) <= r
    ensures exists u :: Id(u) == r
    ensures r == 4
  {
    var vs := Values();
    r := 0;
    for i := 0 to |vs|
      invariant forall j :: 0 <= j < i ==> Id(vs[j]) <= r
      invariant r == 0 || exists j :: 0 <= j < i && Id(vs[j]) == r
    {
      if Id(vs[i]) > r {
        r := Id(vs[i]);
      }
    }
    forall u: Unit ensures Id(u) <= r {
      ValuesListsEveryUnit(u);
    }
    if r == 0 {
      assert Id(MILLISECONDS) == r;
    }
    assert Id(DAYS) <= r;
  }

  /** `Unit.min_id()`: starts from `max_id()` and keeps the smallest id of any constant. */
  method MinId() returns (r: int)
    ensures forall u :: r <= Id(u)
    ensures exists u :: Id(u) == r
    ensures r == 0
  {
    var vs := Values();
    r := MaxId();
    for i := 0 to |vs|
      invariant forall j :: 0 <= j < i ==> r <= Id(vs[j])
      invariant exists u :: Id(u) == r
    {
      if Id(vs[i]) < r {
        r := Id(vs[i]);
      }
    }
    forall u: Unit ensures r <= Id(u) {
      ValuesListsEveryUnit(u);
    }
    assert r <= Id(MILLISECONDS);
  }

  /** The id of each constant, by its position in declaration order. */
  function IdByOrdinal(i: nat): int
    requires i < 18
  {
    [0, 0, 0, 0, 1, 1, 1, 1, 2, 2, 2, 2, 3, 3, 3, 4, 4, 4][i]
  }

  lemma {:induction false} IdTable(u: Unit)
    ensures Id(u) == IdByOrdinal(Ordinal(u))
  {
  }

  lemma {:induction false} GetIsCanonical(id: int)
    ensures 0 <= id <= 4 ==> FirstWithId(Values(), id) == Some(Canonical(id))
    ensures !(0 <= id <= 4) ==> FirstWithId(Values(), id) == None
  {
    if 0 <= id <= 4 {
      FirstWithIdCanonical(id);
    } else {
      FirstWithIdAbsent(Values(), id);
    }
  }

  lemma {:induction false} FirstWithIdCanonical(id: int)
    requires 0 <= id <= 4
    ensures FirstWithId(Values(), id) == Some(Canonical(id))
  {
    if id == 0 {
      FirstWithIdAt(id, 0);
    } else if id == 1 {
      FirstWithIdAt(id, 4);
    } else if id == 2 {
      FirstWithIdAt(id, 8);
    } else if id == 3 {
      FirstWithIdAt(id, 12);
    } else {
      FirstWithIdAt(id, 15);
    }
  }

  /** The search over `values()` stops at the first position whose id matches. */
  lemma {:induction false} FirstWithIdAt(id: int, k: nat)
    requires k < 18 && IdByOrdinal(k) == id
    requires forall i :: 0 <= i < k ==> IdByOrdinal(i) != id
    ensures FirstWithId(Values(), id) == Some(Values()[k])
  {
    var vs := Values();
    forall i | 0 <= i < k ensures Id(vs[i]) != id {
      IdTable(vs[i]);
    }
    IdTable(vs[k]);
    FirstWithIdSkip(vs, id, k);
  }

  /** No constant carries an id outside 0..4, so the search finds nothing. */
  lemma {:induction false} FirstWithIdAbsent(us: seq<Unit>, id: int)
    requires !(0 <= id <= 4)
    ensures FirstWithId(us, id) == None
  {
    if us != [] {
      FirstWithIdAbsent(us[1..], id);
    }
  }

  /** The search passes over leading constants with another id. */
  lemma {:induction false} FirstWithIdSkip(us: seq<Unit>, id: int, k: nat)
    requires k < |us|
    requires forall i :: 0 <= i < k ==> Id(us[i]) != id
    ensures Id(us[k]) == id ==> FirstWithId(us, id) == Some(us[k])
  {
    if k > 0 {
      FirstWithIdSkip(us[1..], id, k - 1);
    }
  }

  function FirstWithId(us: seq<Unit>, id: int): (r: Option<Unit>)
    ensures r.Some? ==> r.value in us && Id(r.value) == id
  {
    if us == [] then None
    else if Id(us[0]) == id then Some(us[0])
    else FirstWithId(us[1..], id)
  }

  // ---------------------------------------------------------------------------
  // Looking a unit up by name

  /** The first constant in `us` whose `name()` is `n`. */
  function NameLookup(us: seq<Unit>, n: string): Option<Unit> {
    if us == [] then None
    else if Name(us[0]) == n then Some(us[0])
    else NameLookup(us[1..], n)
  }

  /** What the lookup finds carries the name looked for. */
  lemma {:induction false} NameLookupSound(us: seq<Unit>, n: string)
    ensures NameLookup(us, n).Some? ==> Name(NameLookup(us, n).value) == n
  {
    if us != [] && Name(us[0]) != n {
      NameLookupSound(us[1..], n);
    }
  }

  /** A constant in `us` is found under its name (possibly as an earlier constant of the same name). */
  lemma {:induction false} NameLookupFinds(us: seq<Unit>, u: Unit)
    requires u in us
    ensures NameLookup(us, Name(u)).Some?
  {
    if Name(us[0]) != Name(u) {
      assert u in us[1..];
      NameLookupFinds(us[1..], u);
    }
  }

  /** Length, first and third character of each name: enough to tell the names apart. */
  function NameKey(u: Unit): (int, char, char) {
    match u
    case MILLISECONDS => (12, 'M', 'L')  case MILLISECOND => (11, 'M', 'L')
    case MILLIS => (6, 'M', 'L')  case MS => (2, 'M', ' ')
    case SECONDS => (7, 'S', 'C')  case SECOND => (6, 'S', 'C')  case SEC => (3, 'S', 'C')  case S => (1, 'S', ' ')
    case MINUTES => (7, 'M', 'N')  case MINUTE => (6, 'M', 'N')  case MIN => (3, 'M', 'N')  case M => (1, 'M', ' ')
    case HOURS => (5, 'H', 'U')  case HOUR => (4, 'H', 'U')  case H => (1, 'H', ' ')
    case DAYS => (4, 'D', 'Y')  case DAY => (3, 'D', 'Y')  case D => (1, 'D', ' ')
  }

  lemma {:induction false} NameKeyOfName(u: Unit)
    ensures NameKey(u).0 == |Name(u)| && NameKey(u).1 == Name(u)[0]
    ensures |Name(u)| > 2 ==> NameKey(u).2 == Name(u)[2]
    ensures |Name(u)| <= 2 ==> NameKey(u).2 == ' '
  {
  }

  /** No two constants share a name. */
  lemma {:induction false} NameInjective(u: Unit, v: Unit)
    requires Name(u) == Name(v)
    ensures u == v
  {
    NameKeyOfName(u);
    NameKeyOfName(v);
    assert NameKey(u) == NameKey(v);
  }

  /** Every name is written in capitals. */
  lemma {:induction false} NameInCapitals(u: Unit)
    ensures forall i :: 0 <= i < |Name(u)| ==> ToUpper(Name(u)[i]) == Name(u)[i]
  {
  }

  /** Every constant is found under its own name. */
  lemma {:induction false} NameFacts(u: Unit)
    ensures NameLookup(Values(), Name(u)) == Some(u)
  {
    ValuesListsEveryUnit(u);
    NameLookupFinds(Values(), u);
    var r := NameLookup(Values(), Name(u));
    NameLookupSound(Values(), Name(u));
    NameInjective(r.value, u);
  }

  /** `s` with its lower-case ASCII letters in capitals. */
  function ToUpperString(s: string): (r: string)
    ensures |r| == |s|
  {
    seq(|s|, i requires 0 <= i < |s| => ToUpper(s[i]))
  }

  /** The constant a unit label stands for: the one whose name is the label in capitals. */
  function UnitNamed(s: string): Option<Unit> {
    NameLookup(Values(), ToUpperString(s))
  }

  /** Case-insensitive equality with a name written in capitals is equality after
      upper-casing. */
  lemma {:induction false} EqualsIgnoreCaseUpper(s: string, n: string)
    requires forall i :: 0 <= i < |n| ==> ToUpper(n[i]) == n[i]
    ensures EqualsIgnoreCase(s, n) <==> ToUpperString(s) == n
  {
    if EqualsIgnoreCase(s, n) {
      assert forall i :: 0 <= i < |s| ==> ToUpperString(s)[i] == n[i];
    }
  }

  /** A label names a constant exactly when it equals that constant's name ignoring
      case; since no two names are equal ignoring case, the constant is unique. */
  lemma {:induction false} UnitNamedMatches(s: string)
    ensures UnitNamed(s).Some? ==> EqualsIgnoreCase(s, Name(UnitNamed(s).value))
    ensures UnitNamed(s).None? ==> forall u :: !EqualsIgnoreCase(s, Name(u))
  {
    if UnitNamed(s).Some? {
      NameLookupSound(Values(), ToUpperString(s));
      NameInCapitals(UnitNamed(s).value);
      EqualsIgnoreCaseUpper(s, Name(UnitNamed(s).value));
    } else {
      forall u ensures !EqualsIgnoreCase(s, Name(u)) {
        NameFacts(u);
        NameInCapitals(u);
        EqualsIgnoreCaseUpper(s, Name(u));
      }
    }
  }

  /** A label whose capitals are no constant's name names no unit. */
  lemma {:induction false} NotANameNamesNothing(s: string)
    requires forall u :: ToUpperString(s) != Name(u)
    ensures UnitNamed(s) == None
  {
    if UnitNamed(s).Some? {
      NameLookupSound(Values(), ToUpperString(s));
    }
  }

  /** There is no year unit: "years" names no constant. */
  lemma {:induction false} NoYearUnit()
    ensures UnitNamed("years") == None
  {
    var up := ToUpperString("years");
    assert up[0] == 'Y';
    forall u ensures up != Name(u) {
      NameKeyOfName(u);
    }
    NotANameNamesNothing("years");
  }

  /** The first constant in `us` whose name equals `s` ignoring case. */
  function FirstNamed(us: seq<Unit>, s: string): Option<Unit> {
    if us == [] then None
    else if EqualsIgnoreCase(s, Name(us[0])) then Some(us[0])
    else FirstNamed(us[1..], s)
  }

  /** Scanning `values()` in order, as `parseUnit` does, finds the constant the label
      names: at most one name matches, and every constant is scanned. */
  lemma {:induction false} ScanFindsNamed(us: seq<Unit>, s: string)
    requires UnitNamed(s).Some? ==> UnitNamed(s).value in us
    ensures FirstNamed(us, s) == UnitNamed(s)
  {
    UnitNamedMatches(s);
    if us != [] {
      if EqualsIgnoreCase(s, Name(us[0])) {
        NameFacts(us[0]);
        NameInCapitals(us[0]);
        EqualsIgnoreCaseUpper(s, Name(us[0]));
      } else {
        ScanFindsNamed(us[1..], s);
      }
    }
  }

  /** `parseUnit(s)`: scans `values()` for a name equal to `s` ignoring case,
      throwing `IllegalArgumentException` when none is. */
  method ParseUnit(s: string) returns (r: Result<Unit>)
    ensures r.Ok? <==> UnitNamed(s).Some?
    ensures r.Ok? ==> r.value == UnitNamed(s).value && EqualsIgnoreCase(s, Name(r.value))
    ensures r.Throws? ==> r.exc == IllegalArgument && forall u :: !EqualsIgnoreCase(s, Name(u))
  {
    var vs := Values();
    ValuesCoverAll();
    ScanFindsNamed(vs, s);
    UnitNamedMatches(s);
    for i := 0 to |vs|
      invariant FirstNamed(vs[i..], s) == FirstNamed(vs, s)
    {
      assert vs[i..][1..] == vs[i + 1..];
      if EqualsIgnoreCase(s, Name(vs[i])) {
        return Ok(vs[i]);
      }
    }
    return Throws(IllegalArgument);
  }

  /** The labels of the unit with id `id` on the chain. */
  function ShortLabel(id: int): string requires 0 <= id <= 4 { ["ms", "s", "m", "h", "d"][id] }
  function SingularLabel(id: int): string requires 0 <= id <= 4 { ["millisecond", "second", "minute", "hour", "day"][id] }
  function PluralLabel(id: int): string requires 0 <= id <= 4 { ["milliseconds", "seconds", "minutes", "hours", "days"][id] }

  /** The attributes of the canonical unit with each id. */
  lemma {:induction false} CanonicalInfo(id: int)
    requires 0 <= id <= 4
    ensures InfoOf(Canonical(id)) == Info(ChainScale(id), id, ShortLabel(id), SingularLabel(id), PluralLabel(id))
  {
  }

  /** The constants named by the shortening and by the singular of each unit on the chain. */
  function ShortUnit(id: int): Unit requires 0 <= id <= 4 { [MS, S, M, H, D][id] }
  function SingularUnit(id: int): Unit requires 0 <= id <= 4 { [MILLISECOND, SECOND, MINUTE, HOUR, DAY][id] }

  /** A label that upper-cases to a constant's name names that constant. */
  lemma {:induction false} LabelNames(text: string, u: Unit)
    requires ToUpperString(text) == Name(u)
    ensures UnitNamed(text) == Some(u)
  {
    NameFacts(u);
  }

  /** Each label of a unit on the chain, in capitals, is the name of a constant. */
  lemma {:induction false} ShortInCapitals(id: int)
    requires 0 <= id <= 4
    ensures ToUpperString(ShortLabel(id)) == Name(ShortUnit(id))
  {
    if id == 0 {
      assert ToUpperString("ms") == "MS";
    } else if id == 1 {
      assert ToUpperString("s") == "S";
    } else if id == 2 {
      assert ToUpperString("m") == "M";
    } else if id == 3 {
      assert ToUpperString("h") == "H";
    } else {
      assert ToUpperString("d") == "D";
    }
  }

  lemma {:induction false} SingularInCapitals(id: int)
    requires 0 <= id <= 4
    ensures ToUpperString(SingularLabel(id)) == Name(SingularUnit(id))
  {
    if id == 0 {
      assert ToUpperString("millisecond") == "MILLISECOND";
    } else if id == 1 {
      assert ToUpperString("second") == "SECOND";
    } else if id == 2 {
      assert ToUpperString("minute") == "MINUTE";
    } else if id == 3 {
      assert ToUpperString("hour") == "HOUR";
    } else {
      assert ToUpperString("day") == "DAY";
    }
  }

  lemma {:induction false} PluralInCapitals(id: int)
    requires 0 <= id <= 4
    ensures ToUpperString(PluralLabel(id)) == Name(Canonical(id))
  {
    if id == 0 {
      assert ToUpperString("milliseconds") == "MILLISECONDS";
    } else if id == 1 {
      assert ToUpperString("seconds") == "SECONDS";
    } else if id == 2 {
      assert ToUpperString("minutes") == "MINUTES";
    } else if id == 3 {
      assert ToUpperString("hours") == "HOURS";
    } else {
      assert ToUpperString("days") == "DAYS";
    }
  }

  lemma {:induction false} ShortLabelNames(id: int)
    requires 0 <= id <= 4
    ensures UnitNamed(ShortLabel(id)) == Some(ShortUnit(id))
  {
    ShortInCapitals(id);
    LabelNames(ShortLabel(id), ShortUnit(id));
  }

  lemma {:induction false} SingularLabelNames(id: int)
    requires 0 <= id <= 4
    ensures UnitNamed(SingularLabel(id)) == Some(SingularUnit(id))
  {
    SingularInCapitals(id);
    LabelNames(SingularLabel(id), SingularUnit(id));
  }

  lemma {:induction false} PluralLabelNames(id: int)
    requires 0 <= id <= 4
    ensures UnitNamed(PluralLabel(id)) == Some(Canonical(id))
  {
    PluralInCapitals(id);
    LabelNames(PluralLabel(id), Canonical(id));
  }

  lemma {:induction false} LabelUnitsScale(id: int)
    requires 0 <= id <= 4
    ensures Scale(ShortUnit(id)) == ChainScale(id)
    ensures Scale(SingularUnit(id)) == ChainScale(id)
    ensures Scale(Canonical(id)) == ChainScale(id)
  {
  }

  /** Every label the formatter writes — the shortening, the singular and the
      plural of each unit on the chain — names a unit of the same scale. */
  lemma {:induction false} LabelsParse(id: int)
    requires 0 <= id <= 4
    ensures UnitNamed(ShortLabel(id)).Some? && Scale(UnitNamed(ShortLabel(id)).value) == ChainScale(id)
    ensures UnitNamed(SingularLabel(id)).Some? && Scale(UnitNamed(SingularLabel(id)).value) == ChainScale(id)
    ensures UnitNamed(PluralLabel(id)).Some? && Scale(UnitNamed(PluralLabel(id)).value) == ChainScale(id)
  {
    ShortLabelNames(id);
    SingularLabelNames(id);
    PluralLabelNames(id);
    LabelUnitsScale(id);
  }
}
