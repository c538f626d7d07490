/** `ArrayUtil`: static helpers that build a new array from an old one with
    index loops — searching, filtering, transforming, removing nulls, joining
    into a string, boxing and unboxing, counting, reversing and hex encoding.
    Arrays of references are `array<T>` for a type `T` that may itself be an
    `Option` (a nullable element); Java's predicates and mappers are pure
    functions. */
module ArrayUtil {
  import opened JavaLang

  // ---------------------------------------------------------------------------
  // first and last

  /** `first(data, filter)`: the first element the filter accepts, or `null`. */
  method First<T>(data: array<T>, p: T -> bool) returns (r: Option<T>)
    ensures r.None? <==> forall i :: 0 <= i < data.Length ==> !p(data[i])
    ensures r.Some? ==> exists k :: (0 <= k < data.Length && data[k] == r.value && p(data[k])
                                     && forall j :: 0 <= j < k ==> !p(data[j]))
  {
    var i := 0;
    while i < data.Length
      invariant 0 <= i <= data.Length
      invariant forall j :: 0 <= j < i ==> !p(data[j])
    {
      if p(data[i]) {
        return Some(data[i]);
      }
      i := i + 1;
    }
    return None;
  }

  /** `first(data)`: the first non-null element, or `null`. */
  method FirstPresent<T>(data: array<Option<T>>) returns (r: Option<T>)
    ensures r.None? <==> forall i :: 0 <= i < data.Length ==> data[i].None?
    ensures r.Some? ==> exists k :: (0 <= k < data.Length && data[k] == r
                                     && forall j :: 0 <= j < k ==> data[j].None?)
  {
    var o := First(data, (x: Option<T>) => x.Some?);
    r := if o.Some? then o.value else None;
  }

  /** `last(data, filter)` as written: the loop starts at the last index but
      counts upwards, so it returns the last element when the filter accepts it
      and otherwise reads past the end and throws
      ArrayIndexOutOfBoundsException, whatever the earlier elements are. */
  method LastAsWritten<T>(data: array<T>, p: T -> bool) returns (r: Result<Option<T>>)
    ensures data.Length == 0 ==> r == Ok(None)
    ensures data.Length > 0 && p(data[data.Length - 1]) ==> r == Ok(Some(data[data.Length - 1]))
    ensures data.Length > 0 && !p(data[data.Length - 1]) ==> r == Throws(IndexOutOfBounds)
  {
    var i := data.Length - 1;
    while i >= 0
      invariant data.Length == 0 ==> i == -1
      invariant data.Length > 0 ==> data.Length - 1 <= i <= data.Length
      invariant i == data.Length ==> !p(data[data.Length - 1])
      decreases data.Length - i
    {
      if i >= data.Length {
        return Throws(IndexOutOfBounds);
      }
      if p(data[i]) {
        return Ok(Some(data[i]));
      }
      i := i + 1;
    }
    return Ok(None);
  }

  /** `last(data, filter)` with the loop counting down, as documented: the last
      element the filter accepts, or `null`. */
  method Last<T>(data: array<T>, p: T -> bool) returns (r: Option<T>)
    ensures r.None? <==> forall i :: 0 <= i < data.Length ==> !p(data[i])
    ensures r.Some? ==> exists k :: (0 <= k < data.Length && data[k] == r.value && p(data[k])
                                     && forall j :: k < j < data.Length ==> !p(data[j]))
  {
    var i := data.Length - 1;
    while i >= 0
      invariant -1 <= i < data.Length
      invariant forall j :: i < j < data.Length ==> !p(data[j])
    {
      if p(data[i]) {
        return Some(data[i]);
      }
      i := i - 1;
    }
    return None;
  }

  // ---------------------------------------------------------------------------
  // filter and arrayFilter

  /** The elements of `s` whose flag is set, in their order. */
  function Select<T>(s: seq<T>, fr: seq<bool>): seq<T>
    requires |s| == |fr|
    decreases |s|
  {
    if s == [] then []
    else Select(s[..|s| - 1], fr[..|fr| - 1]) + (if fr[|fr| - 1] then [s[|s| - 1]] else [])
  }

  /** The number of set flags. */
  function Trues(fr: seq<bool>): nat
    decreases |fr|
  {
    if fr == [] then 0 else Trues(fr[..|fr| - 1]) + (if fr[|fr| - 1] then 1 else 0)
  }

  /** The verdict of `keep` on each element and its index: the flags the first
      pass of `filter` writes. */
  function Marks<T>(s: seq<T>, keep: (int, T) -> bool): (fr: seq<bool>)
    ensures |fr| == |s| && forall i :: 0 <= i < |s| ==> fr[i] == keep(i, s[i])
  {
    Mapped(s, keep)
  }

  /** The elements that `keep` accepts, given with their index. */
  function Kept<T>(s: seq<T>, keep: (int, T) -> bool): seq<T> {
    Select(s, Marks(s, keep))
  }

  /** A function of elements seen as one of elements and their index. */
  function Ignoring<T, U>(f: T -> U): (int, T) -> U {
    (i: int, x: T) => f(x)
  }

  /** The second pass shared by `uc_filter` and `uc_arrayFilter`: copy the
      flagged elements into a new array of the counted length. */
  method Compact<T(0)>(data: array<T>, fr: array<bool>, n: int) returns (res: array<T>)
    requires fr.Length == data.Length && n == Trues(fr[..])
    ensures fresh(res) && res[..] == Select(data[..], fr[..])
  {
    res := new T[n];
    var i2 := 0;
    var i := 0;
    while i < fr.Length && i2 < n
      invariant 0 <= i <= fr.Length
      invariant i2 == Trues(fr[..i]) <= n
      invariant res[..i2] == Select(data[..i], fr[..i])
    {
      TruesSplit(fr[..], i);
      assert data[..i + 1][..i] == data[..i];
      assert fr[..i + 1][..i] == fr[..i];
      if fr[i] {
        res[i2] := data[i];
        i2 := i2 + 1;
      }
      i := i + 1;
    }
    SelectDone(data[..], fr[..], i);
    assert res[..] == res[..i2];
  }

  /** Once the flags before `i` hold every set flag, the selection is complete. */
  lemma {:induction false} SelectDone<T>(s: seq<T>, fr: seq<bool>, i: int)
    requires |s| == |fr| && 0 <= i <= |s|
    requires i == |s| || Trues(fr[..i]) == Trues(fr)
    ensures Trues(fr[..i]) == Trues(fr)
    ensures Select(s[..i], fr[..i]) == Select(s, fr)
  {
    TruesSplit(fr, i);
    assert i == |s| ==> fr[..i] == fr;
    SelectAppend(s[..i], s[i..], fr[..i], fr[i..]);
    SelectNone(s[i..], fr[i..]);
    assert s[..i] + s[i..] == s;
    assert fr[..i] + fr[i..] == fr;
  }

  /** `uc_filter(c, data, filter)`: flags each element with the filter, counts
      the accepted ones, then copies them into a new array. */
  method Filter<T(0)>(data: array<T>, p: T -> bool) returns (res: array<T>)
    ensures fresh(res) && res[..] == Kept(data[..], Ignoring(p))
  {
    var fr := new bool[data.Length];
    var i1 := 0;
    var n := 0;
    while i1 < data.Length
      invariant 0 <= i1 <= data.Length
      invariant forall k :: 0 <= k < i1 ==> fr[k] == p(data[k])
      invariant n == Trues(fr[..i1])
    {
      assert fr[..i1 + 1][..i1] == fr[..i1];
      if p(data[i1]) {
        n := n + 1;
        fr[i1] := true;
      } else {
        fr[i1] := false;
      }
      assert fr[..i1 + 1][..i1] == fr[..i1];
      i1 := i1 + 1;
    }
    assert fr[..] == fr[..i1];
    assert fr[..] == Marks(data[..], Ignoring(p));
    res := Compact(data, fr, n);
  }

  /** `uc_arrayFilter(c, data, filter)`: as `uc_filter`, but the filter also
      gets each element's index. */
  method ArrayFilter<T(0)>(data: array<T>, keep: (int, T) -> bool) returns (res: array<T>)
    ensures fresh(res) && res[..] == Kept(data[..], keep)
  {
    var fr := new bool[data.Length];
    var i1 := -1;
    var n := 0;
    while i1 + 1 < data.Length
      invariant -1 <= i1 < data.Length
      invariant forall k :: 0 <= k <= i1 ==> fr[k] == keep(k, data[k])
      invariant n == Trues(fr[..i1 + 1])
    {
      i1 := i1 + 1;
      assert fr[..i1 + 1][..i1] == fr[..i1];
      if keep(i1, data[i1]) {
        n := n + 1;
        fr[i1] := true;
      } else {
        fr[i1] := false;
      }
      assert fr[..i1 + 1][..i1] == fr[..i1];
    }
    assert fr[..] == fr[..i1 + 1];
    assert fr[..] == Marks(data[..], keep);
    res := Compact(data, fr, n);
  }

  /** Selecting from a concatenation selects from each part, in order. */
  lemma {:induction false} SelectAppend<T>(s1: seq<T>, s2: seq<T>, f1: seq<bool>, f2: seq<bool>)
    requires |s1| == |f1| && |s2| == |f2|
    ensures Select(s1 + s2, f1 + f2) == Select(s1, f1) + Select(s2, f2)
    decreases |s2|
  {
    if s2 != [] {
      var s, f := s1 + s2, f1 + f2;
      assert s[..|s| - 1] == s1 + s2[..|s2| - 1];
      assert f[..|f| - 1] == f1 + f2[..|f2| - 1];
      SelectAppend(s1, s2[..|s2| - 1], f1, f2[..|f2| - 1]);
    } else {
      assert s1 + s2 == s1;
      assert f1 + f2 == f1;
    }
  }

  /** As many elements are selected as flags are set. */
  lemma {:induction false} SelectLength<T>(s: seq<T>, fr: seq<bool>)
    requires |s| == |fr|
    ensures |Select(s, fr)| == Trues(fr)
    decreases |s|
  {
    if s != [] {
      SelectLength(s[..|s| - 1], fr[..|fr| - 1]);
    }
  }

  /** Nothing is selected when no flag is set. */
  lemma {:induction false} SelectNone<T>(s: seq<T>, fr: seq<bool>)
    requires |s| == |fr| && Trues(fr) == 0
    ensures Select(s, fr) == []
  {
    SelectLength(s, fr);
  }

  /** Counting flags splits at any point. */
  lemma {:induction false} TruesSplit(fr: seq<bool>, i: int)
    requires 0 <= i <= |fr|
    ensures Trues(fr) == Trues(fr[..i]) + Trues(fr[i..])
    decreases |fr| - i
  {
    if i < |fr| {
      TruesSplit(fr[..|fr| - 1], i);
      assert fr[..|fr| - 1][..i] == fr[..i];
      assert fr[i..][..|fr[i..]| - 1] == fr[..|fr| - 1][i..];
    } else {
      assert fr[..i] == fr;
    }
  }

  /** An element is kept exactly when `keep` accepts it at some index holding it. */
  lemma {:induction false} KeptMembers<T>(s: seq<T>, keep: (int, T) -> bool, x: T)
    ensures x in Kept(s, keep) <==> exists i :: 0 <= i < |s| && s[i] == x && keep(i, s[i])
  {
    SelectMembers(s, Marks(s, keep), x);
  }

  lemma {:induction false} SelectMembers<T>(s: seq<T>, fr: seq<bool>, x: T)
    requires |s| == |fr|
    ensures x in Select(s, fr) <==> exists i :: 0 <= i < |s| && s[i] == x && fr[i]
    decreases |s|
  {
    if s != [] {
      var n := |s| - 1;
      SelectMembers(s[..n], fr[..n], x);
      if x in Select(s[..n], fr[..n]) {
        var i :| 0 <= i < n && s[..n][i] == x && fr[..n][i];
        assert s[i] == x && fr[i];
      }
      if exists i :: 0 <= i < |s| && s[i] == x && fr[i] {
        var i :| 0 <= i < |s| && s[i] == x && fr[i];
        if i < n {
          assert s[..n][i] == x && fr[..n][i];
        }
      }
    }
  }

  /** The kept elements are as many as the accepted ones; none are kept when
      none are accepted, and all when all are. */
  lemma {:induction false} KeptCount<T>(s: seq<T>, keep: (int, T) -> bool)
    ensures |Kept(s, keep)| == Trues(Marks(s, keep))
    ensures Kept(s, keep) == [] <==> forall i :: 0 <= i < |s| ==> !keep(i, s[i])
    ensures (forall i :: 0 <= i < |s| ==> keep(i, s[i])) ==> Kept(s, keep) == s
  {
    var fr := Marks(s, keep);
    SelectLength(s, fr);
    TruesZero(fr);
    if forall i :: 0 <= i < |s| ==> keep(i, s[i]) {
      SelectAll(s, fr);
    }
  }

  /** No flag is set exactly when none is counted. */
  lemma {:induction false} TruesZero(fr: seq<bool>)
    ensures Trues(fr) == 0 <==> forall i :: 0 <= i < |fr| ==> !fr[i]
    decreases |fr|
  {
    if fr != [] {
      var n := |fr| - 1;
      TruesZero(fr[..n]);
      assert forall i :: 0 <= i < n ==> fr[..n][i] == fr[i];
    }
  }

  lemma {:induction false} SelectAll<T>(s: seq<T>, fr: seq<bool>)
    requires |s| == |fr| && forall i :: 0 <= i < |fr| ==> fr[i]
    ensures Select(s, fr) == s
    decreases |s|
  {
    if s != [] {
      var n := |s| - 1;
      SelectAll(s[..n], fr[..n]);
      assert s[..n] + [s[n]] == s;
    }
  }

  /** `filter` keeps the relative order: filtering a concatenation filters each part. */
  lemma {:induction false} FilterOrder<T>(s1: seq<T>, s2: seq<T>, p: T -> bool)
    ensures Kept(s1 + s2, Ignoring(p)) == Kept(s1, Ignoring(p)) + Kept(s2, Ignoring(p))
  {
    assert Marks(s1 + s2, Ignoring(p)) == Marks(s1, Ignoring(p)) + Marks(s2, Ignoring(p));
    SelectAppend(s1, s2, Marks(s1, Ignoring(p)), Marks(s2, Ignoring(p)));
  }

  /** The filter of `ArrayUtilTest.arrayFilter`: odd positions holding three or four characters. */
  function OddShort(i: int, t: string): bool {
    (i + 1) % 2 == 0 && (|t| == 3 || |t| == 4)
  }

  lemma {:induction false} ArrayFilterExample()
    ensures Kept(["ABC", "deE", "oe", "MADSK", "dsi", "skAD"], OddShort) == ["deE", "skAD"]
  {
    var s := ["ABC", "deE", "oe", "MADSK", "dsi", "skAD"];
    var fr := Marks(s, OddShort);
    assert fr == [false, true, false, false, false, true];
    assert Select(s[..1], fr[..1]) == [];
    assert Select(s[..2], fr[..2]) == ["deE"];
    forall k | 3 <= k <= 5
      ensures s[..k][..k - 1] == s[..k - 1] && fr[..k][..k - 1] == fr[..k - 1]
    {
    }
    assert Select(s[..3], fr[..3]) == ["deE"];
    assert Select(s[..4], fr[..4]) == ["deE"];
    assert Select(s[..5], fr[..5]) == ["deE"];
    assert s[..6] == s && fr[..6] == fr;
  }

  // ---------------------------------------------------------------------------
  // transform and arrayTransform

  /** The transformer applied to each element and its index. */
  function Mapped<T, R>(s: seq<T>, f: (int, T) -> R): (r: seq<R>)
    ensures |r| == |s| && forall i :: 0 <= i < |s| ==> r[i] == f(i, s[i])
  {
    seq(|s|, i requires 0 <= i < |s| => f(i, s[i]))
  }

  /** `uc_arrayTransform(c, data, transformer, index, element)`: a new array of
      nulls; when `index` is not -1, the positions before it stay null and
      `element` goes at `index`; every later position gets the transformer's
      result. */
  method TransformFrom<T, R>(data: array<T>, f: (int, T) -> Option<R>, index: int, element: Option<R>)
    returns (res: array<Option<R>>)
    requires index == -1 || 0 <= index < data.Length
    ensures fresh(res) && res.Length == data.Length
    ensures forall i :: 0 <= i < index ==> res[i] == None
    ensures index != -1 ==> res[index] == element
    ensures forall i :: index < i < data.Length ==> res[i] == f(i, data[i])
  {
    res := new Option<R>[data.Length](i => None);
    if index != -1 {
      var i := 0;
      while i < index
        invariant 0 <= i <= index
        invariant forall j :: 0 <= j < res.Length ==> res[j] == None
      {
        res[i] := None;
        i := i + 1;
      }
      res[index] := element;
    }
    var i := index + 1;
    while i < data.Length
      invariant index + 1 <= i <= data.Length
      invariant forall j :: 0 <= j < index ==> res[j] == None
      invariant index != -1 ==> res[index] == element
      invariant forall j :: index < j < i ==> res[j] == f(j, data[j])
    {
      res[i] := f(i, data[i]);
      i := i + 1;
    }
  }

  /** `arrayTransform(data, transformer)`: runs the transformer until it gives a
      non-null result, whose class types the new array, and transforms the rest
      from there; when every result is null (an empty array included) it
      throws IllegalArgumentException. */
  method ArrayTransform<T, R>(data: array<T>, f: (int, T) -> Option<R>) returns (r: Result<array<Option<R>>>)
    ensures r.Throws? <==> forall i :: 0 <= i < data.Length ==> f(i, data[i]).None?
    ensures r.Throws? ==> r.exc == IllegalArgument
    ensures r.Ok? ==> fresh(r.value) && r.value[..] == Mapped(data[..], f)
  {
    var o: Option<R> := None;
    var i := 0;
    while i < data.Length && o.None?
      invariant 0 <= i <= data.Length
      invariant o.None? ==> forall j :: 0 <= j < i ==> f(j, data[j]).None?
      invariant o.Some? ==> 1 <= i && o == f(i - 1, data[i - 1])
      invariant o.Some? ==> forall j :: 0 <= j < i - 1 ==> f(j, data[j]).None?
    {
      o := f(i, data[i]);
      i := i + 1;
    }
    if o.None? {
      return Throws(IllegalArgument);
    }
    var res := TransformFrom(data, f, i - 1, o);
    assert res[..] == Mapped(data[..], f);
    return Ok(res);
  }

  /** `arrayTransform(c, data, transformer)`: the class is given, so every
      element is transformed and nothing throws. */
  method ArrayTransformTo<T, R>(data: array<T>, f: (int, T) -> Option<R>) returns (res: array<Option<R>>)
    ensures fresh(res) && res[..] == Mapped(data[..], f)
  {
    res := TransformFrom(data, f, -1, None);
  }

  /** `transform(data, transformer)`: `arrayTransform` with a transformer that
      does not look at the index. */
  method Transform<T, R>(data: array<T>, f: T -> Option<R>) returns (r: Result<array<Option<R>>>)
    ensures r.Throws? <==> forall i :: 0 <= i < data.Length ==> f(data[i]).None?
    ensures r.Throws? ==> r.exc == IllegalArgument
    ensures r.Ok? ==> fresh(r.value) && r.value[..] == Mapped(data[..], Ignoring(f))
  {
    r := ArrayTransform(data, Ignoring(f));
  }

  /** `transform(c, data, transformer)`. */
  method TransformTo<T, R>(data: array<T>, f: T -> Option<R>) returns (res: array<Option<R>>)
    ensures fresh(res) && res[..] == Mapped(data[..], Ignoring(f))
  {
    res := TransformFrom(data, Ignoring(f), -1, None);
  }

  // ---------------------------------------------------------------------------
  // denullify

  /** The non-null elements, in their order. */
  function Present<T>(s: seq<Option<T>>): seq<T>
    decreases |s|
  {
    if s == [] then []
    else Present(s[..|s| - 1]) + (if s[|s| - 1].Some? then [s[|s| - 1].value] else [])
  }

  /** `uc_denullify(c, data)`: counts the non-null elements, then copies them
      into a new array of that length. */
  method Denullify<T(0)>(data: array<Option<T>>) returns (res: array<T>)
    ensures fresh(res) && res[..] == Present(data[..])
  {
    var n := 0;
    var i := 0;
    while i < data.Length
      invariant 0 <= i <= data.Length && n == |Present(data[..i])|
    {
      assert data[..i + 1][..i] == data[..i];
      if data[i].Some? {
        n := n + 1;
      }
      i := i + 1;
    }
    assert data[..i] == data[..];
    res := new T[n];
    var i2 := 0;
    i := 0;
    while i < data.Length
      invariant 0 <= i <= data.Length
      invariant i2 == |Present(data[..i])| <= n
      invariant res[..i2] == Present(data[..i])
    {
      assert data[..i + 1][..i] == data[..i];
      PresentPrefix(data[..], i + 1);
      if data[i].Some? {
        res[i2] := data[i].value;
        i2 := i2 + 1;
      }
      i := i + 1;
    }
    assert data[..i] == data[..];
  }

  /** A prefix has no more non-null elements than the whole. */
  lemma {:induction false} PresentPrefix<T>(s: seq<Option<T>>, i: int)
    requires 0 <= i <= |s|
    ensures |Present(s[..i])| <= |Present(s)|
  {
    PresentAppend(s[..i], s[i..]);
    assert s[..i] + s[i..] == s;
  }

  /** `denullify` keeps the relative order: it works part by part. */
  lemma {:induction false} PresentAppend<T>(s1: seq<Option<T>>, s2: seq<Option<T>>)
    ensures Present(s1 + s2) == Present(s1) + Present(s2)
    decreases |s2|
  {
    if s2 != [] {
      var s := s1 + s2;
      assert s[..|s| - 1] == s1 + s2[..|s2| - 1];
      PresentAppend(s1, s2[..|s2| - 1]);
    } else {
      assert s1 + s2 == s1;
    }
  }

  /** `denullify` removes exactly the nulls: `x` survives iff `x` was there. */
  lemma {:induction false} PresentMembers<T>(s: seq<Option<T>>, x: T)
    ensures x in Present(s) <==> Some(x) in s
    decreases |s|
  {
    if s != [] {
      var n := |s| - 1;
      PresentMembers(s[..n], x);
      assert s == s[..n] + [s[n]];
    }
  }

  /** Only nulls give an empty array, and without nulls nothing is removed. */
  lemma {:induction false} PresentAllOrNothing<T>(s: seq<Option<T>>)
    ensures Present(s) == [] <==> forall i :: 0 <= i < |s| ==> s[i].None?
    ensures (forall i :: 0 <= i < |s| ==> s[i].Some?) ==> |Present(s)| == |s|
    decreases |s|
  {
    if s != [] {
      var n := |s| - 1;
      PresentAllOrNothing(s[..n]);
      assert forall i :: 0 <= i < n ==> s[..n][i] == s[i];
    }
  }

  // ---------------------------------------------------------------------------
  // join

  /** How `join` writes an element: its `toString`, or "null". */
  function Text(o: Option<string>): string {
    if o.Some? then o.value else "null"
  }

  /** A nullable prefix, delimiter or suffix: omitted when `null`. */
  function OrEmpty(o: Option<string>): string {
    if o.Some? then o.value else ""
  }

  /** The texts of the elements. */
  function Texts(s: seq<Option<string>>): (t: seq<string>)
    ensures |t| == |s| && forall i :: 0 <= i < |s| ==> t[i] == Text(s[i])
  {
    seq(|s|, i requires 0 <= i < |s| => Text(s[i]))
  }

  /** The parts with `d` between each two neighbours. */
  function Joined(ps: seq<string>, d: string): string
    decreases |ps|
  {
    if ps == [] then ""
    else if |ps| == 1 then ps[0]
    else Joined(ps[..|ps| - 1], d) + d + ps[|ps| - 1]
  }

  /** `join(data, delimiter, before, after)`: a StringBuilder gets `before`, then
      each element's text with the delimiter in front of all but the first,
      then `after`; each of the three is skipped when `null`. */
  method Join(data: array<Option<string>>, delimiter: Option<string>, before: Option<string>, after: Option<string>)
    returns (r: string)
    ensures r == OrEmpty(before) + Joined(Texts(data[..]), OrEmpty(delimiter)) + OrEmpty(after)
  {
    var sb := "";
    if before.Some? {
      sb := sb + before.value;
    }
    var i := 0;
    while i < data.Length
      invariant 0 <= i <= data.Length
      invariant sb == OrEmpty(before) + Joined(Texts(data[..i]), OrEmpty(delimiter))
    {
      ghost var prev := sb;
      if i != 0 && delimiter.Some? {
        sb := sb + delimiter.value;
      }
      ghost var mid := sb;
      sb := sb + (if data[i].None? then "null" else data[i].value);
      assert data[..i + 1] == data[..i] + [data[i]];
      JoinLoopStep(data[..i], data[i], delimiter, before, prev, mid, sb);
      i := i + 1;
    }
    assert data[..i] == data[..];
    if after.Some? {
      sb := sb + after.value;
    }
    r := sb;
  }

  /** One element of `join`: the delimiter unless it is the first, then its text. */
  lemma {:induction false} JoinLoopStep(pre: seq<Option<string>>, x: Option<string>, delimiter: Option<string>,
                                        before: Option<string>, prev: string, mid: string, next: string)
    requires prev == OrEmpty(before) + Joined(Texts(pre), OrEmpty(delimiter))
    requires mid == if |pre| != 0 && delimiter.Some? then prev + delimiter.value else prev
    requires next == mid + Text(x)
    ensures next == OrEmpty(before) + Joined(Texts(pre + [x]), OrEmpty(delimiter))
  {
    assert Texts(pre + [x]) == Texts(pre) + [Text(x)];
    var sep := if Texts(pre) == [] then "" else OrEmpty(delimiter);
    assert mid == prev + sep;
    JoinStep(Texts(pre), Text(x), OrEmpty(delimiter), sep, OrEmpty(before), prev, next);
  }

  /** One turn of the loop in `join`: the delimiter unless first, then the text. */
  lemma {:induction false} JoinStep(t: seq<string>, x: string, d: string, sep: string,
                                    head: string, prev: string, next: string)
    requires prev == head + Joined(t, d)
    requires sep == if t == [] then "" else d
    requires next == prev + sep + x
    ensures next == head + Joined(t + [x], d)
  {
    JoinedSnoc(t, x, d);
    if t == [] {
      assert next == head + x;
    } else {
      assert next == head + Joined(t, d) + d + x;
    }
  }

  /** `join(data)`: "[" + elements separated by ", " + "]". */
  method JoinList(data: array<Option<string>>) returns (r: string)
    ensures r == "[" + Joined(Texts(data[..]), ", ") + "]"
  {
    r := Join(data, Some(", "), Some("["), Some("]"));
  }

  /** `join(data, delimiter)`: no prefix and no suffix. */
  method JoinWith(data: array<Option<string>>, delimiter: Option<string>) returns (r: string)
    ensures r == Joined(Texts(data[..]), OrEmpty(delimiter))
  {
    r := Join(data, delimiter, None, None);
  }

  lemma TextsSnoc(s: seq<Option<string>>, i: int)
    requires 0 <= i < |s|
    ensures Texts(s[..i + 1]) == Texts(s[..i]) + [Text(s[i])]
  {
    assert s[..i + 1] == s[..i] + [s[i]];
  }

  /** Appending a part puts the delimiter before it unless it is the first. */
  lemma {:induction false} JoinedSnoc(ps: seq<string>, p: string, d: string)
    ensures Joined(ps + [p], d) == if ps == [] then p else Joined(ps, d) + d + p
  {
    assert (ps + [p])[..|ps|] == ps;
  }

  /** The delimiter goes between neighbours, read from the front: the first
      part, then for the rest the delimiter and their join. */
  lemma {:induction false} JoinedCons(p: string, ps: seq<string>, d: string)
    ensures Joined([p] + ps, d) == if ps == [] then p else p + d + Joined(ps, d)
    decreases |ps|
  {
    if |ps| >= 2 {
      var n := |ps| - 1;
      JoinedCons(p, ps[..n], d);
      assert ([p] + ps)[..|ps|] == [p] + ps[..n];
    } else if |ps| == 1 {
      assert ([p] + ps)[..1] == [p];
    }
  }

  /** The joined text is the parts' lengths plus one delimiter per gap. */
  lemma {:induction false} JoinedLength(ps: seq<string>, d: string)
    ensures |Joined(ps, d)| == TotalLength(ps) + (if ps == [] then 0 else (|ps| - 1) * |d|)
    decreases |ps|
  {
    if |ps| >= 2 {
      JoinedLength(ps[..|ps| - 1], d);
    } else if |ps| == 1 {
      assert ps[..0] == [];
    }
  }

  function TotalLength(ps: seq<string>): nat
    decreases |ps|
  {
    if ps == [] then 0 else TotalLength(ps[..|ps| - 1]) + |ps[|ps| - 1]|
  }

  /** `ArrayUtilTest.join`: three elements with ", " inside brackets, and with
      "-" between "$" and "?"; a `null` element is written "null". */
  lemma {:induction false} JoinExamples()
    ensures "[" + Joined(Texts([Some("213"), Some("342"), Some("435")]), ", ") + "]" == "[213, 342, 435]"
    ensures "$" + Joined(Texts([Some("213"), Some("342"), Some("435")]), "-") + "?" == "$213-342-435?"
    ensures Joined(Texts([Some("asd"), None]), "/") == "asd/null"
  {
    JoinNumbers("213", "342", "435");
    JoinNull("asd");
  }

  lemma {:induction false} JoinNumbers(a: string, b: string, c: string)
    requires a == "213" && b == "342" && c == "435"
    ensures "[" + Joined(Texts([Some(a), Some(b), Some(c)]), ", ") + "]" == "[213, 342, 435]"
    ensures "$" + Joined(Texts([Some(a), Some(b), Some(c)]), "-") + "?" == "$213-342-435?"
  {
    assert Texts([Some(a), Some(b), Some(c)]) == [a, b, c];
    JoinedThree(a, b, c, ", ");
    JoinedThree(a, b, c, "-");
  }

  lemma {:induction false} JoinNull(a: string)
    requires a == "asd"
    ensures Joined(Texts([Some(a), None]), "/") == "asd/null"
  {
    assert Texts([Some(a), None]) == [a] + ["null"];
    JoinedSnoc([a], "null", "/");
  }

  lemma {:induction false} JoinedThree(a: string, b: string, c: string, d: string)
    ensures Joined([a, b, c], d) == a + d + b + d + c
  {
    JoinedSnoc([a], b, d);
    assert [a] + [b] == [a, b];
    JoinedSnoc([a, b], c, d);
    assert [a, b] + [c] == [a, b, c];
  }

  // ---------------------------------------------------------------------------
  // unbox and enbox (the integral and boolean overloads)

  /** Each value, with `def` for `null`. */
  function Unboxed<T>(s: seq<Option<T>>, def: T): (r: seq<T>)
    ensures |r| == |s|
  {
    seq(|s|, i requires 0 <= i < |s| => if s[i].Some? then s[i].value else def)
  }

  /** Each value, boxed. */
  function Enboxed<T>(s: seq<T>): (r: seq<Option<T>>)
    ensures |r| == |s|
  {
    seq(|s|, i requires 0 <= i < |s| => Some(s[i]))
  }

  /** `unbox(data, def)`: a new primitive array, `def` where `data` holds `null`. */
  method Unbox<T(0)>(data: array<Option<T>>, def: T) returns (res: array<T>)
    ensures fresh(res) && res[..] == Unboxed(data[..], def)
  {
    res := new T[data.Length];
    var i := 0;
    while i < data.Length
      invariant 0 <= i <= data.Length
      invariant forall j :: 0 <= j < i ==> res[j] == (if data[j].Some? then data[j].value else def)
    {
      res[i] := if data[i].None? then def else data[i].value;
      i := i + 1;
    }
  }

  /** `unbox(data)` on `Integer[]`: `null` becomes 0. */
  method UnboxInts(data: array<Option<int>>) returns (res: array<int>)
    ensures fresh(res) && res[..] == Unboxed(data[..], 0)
  {
    res := Unbox(data, 0);
  }

  /** `enbox(data)`: a new array of the same values, boxed. */
  method Enbox<T>(data: array<T>) returns (res: array<Option<T>>)
    ensures fresh(res) && res[..] == Enboxed(data[..])
  {
    res := new Option<T>[data.Length](i => None);
    var i := 0;
    while i < data.Length
      invariant 0 <= i <= data.Length
      invariant forall j :: 0 <= j < i ==> res[j] == Some(data[j])
    {
      res[i] := Some(data[i]);
      i := i + 1;
    }
  }

  /** Unboxing what was boxed gives the values back, whatever the default. */
  lemma {:induction false} UnboxEnbox<T>(s: seq<T>, def: T)
    ensures Unboxed(Enboxed(s), def) == s
  {
    assert forall i :: 0 <= i < |s| ==> Unboxed(Enboxed(s), def)[i] == s[i];
  }

  /** Boxing what was unboxed gives the array back exactly when it held no `null`. */
  lemma {:induction false} EnboxUnbox<T>(s: seq<Option<T>>, def: T)
    ensures Enboxed(Unboxed(s, def)) == s <==> forall i :: 0 <= i < |s| ==> s[i].Some?
  {
    if forall i :: 0 <= i < |s| ==> s[i].Some? {
      assert forall i :: 0 <= i < |s| ==> Enboxed(Unboxed(s, def))[i] == s[i];
    } else {
      var i :| 0 <= i < |s| && s[i].None?;
      assert Enboxed(Unboxed(s, def))[i].Some?;
    }
  }

  // ---------------------------------------------------------------------------
  // count, index and has

  /** `count(data, target)`: how many elements equal the target. */
  method Count<T(==)>(data: array<T>, target: T) returns (r: int)
    ensures r == multiset(data[..])[target]
  {
    r := 0;
    var i := 0;
    while i < data.Length
      invariant 0 <= i <= data.Length && r == multiset(data[..i])[target]
    {
      assert data[..i + 1] == data[..i] + [data[i]];
      if data[i] == target {
        r := r + 1;
      }
      i := i + 1;
    }
    assert data[..i] == data[..];
  }

  /** `index(data, target)`: the first position holding the target, or -1. */
  method Index<T(==)>(data: array<T>, target: T) returns (r: int)
    ensures -1 <= r < data.Length
    ensures r == -1 <==> target !in data[..]
    ensures r >= 0 ==> data[r] == target && forall j :: 0 <= j < r ==> data[j] != target
  {
    var i := 0;
    while i < data.Length
      invariant 0 <= i <= data.Length
      invariant forall j :: 0 <= j < i ==> data[j] != target
    {
      if data[i] == target {
        return i;
      }
      i := i + 1;
    }
    return -1;
  }

  /** `has(data, target)`: `index` is not -1, so the target occurs. */
  method Has<T(==)>(data: array<T>, target: T) returns (b: bool)
    ensures b <==> target in data[..]
    ensures b <==> multiset(data[..])[target] > 0
  {
    var i := Index(data, target);
    b := i != -1;
  }

  // ---------------------------------------------------------------------------
  // reverse

  /** The elements back to front. */
  function Reversed<T>(s: seq<T>): (r: seq<T>)
    ensures |r| == |s| && forall i :: 0 <= i < |s| ==> r[|s| - i - 1] == s[i]
    decreases |s|
  {
    if s == [] then [] else [s[|s| - 1]] + Reversed(s[..|s| - 1])
  }

  /** `reverse(data)`: a new array with element `i` at `n - i - 1`. */
  method Reverse<T(0)>(data: array<T>) returns (ret: array<T>)
    ensures fresh(ret) && ret[..] == Reversed(data[..])
  {
    var n := data.Length;
    ret := new T[n];
    var i := 0;
    while i < data.Length
      invariant 0 <= i <= n
      invariant forall j :: 0 <= j < i ==> ret[n - j - 1] == data[j]
    {
      ret[n - i - 1] := data[i];
      i := i + 1;
    }
    assert forall k :: 0 <= k < n ==> ret[k] == data[n - k - 1];
  }

  /** Reversing twice gives the array back. */
  lemma {:induction false} ReversedTwice<T>(s: seq<T>)
    ensures Reversed(Reversed(s)) == s
  {
    var r := Reversed(s);
    forall i | 0 <= i < |s|
      ensures Reversed(r)[i] == s[i]
    {
      var j := |s| - 1 - i;
      assert Reversed(r)[|r| - j - 1] == r[j];
      assert r[|s| - i - 1] == s[i];
    }
  }

  // ---------------------------------------------------------------------------
  // toHexArray and toHexString

  /** A Java `byte`. */
  type Byte = b: int | -128 <= b < 128

  /** The unsigned value `String.format` prints for a `byte`: 2^8 is added to a negative one. */
  function Unsigned(b: Byte): (u: int)
    ensures 0 <= u < 256 && u % 256 == b % 256
  {
    if b < 0 then b + 256 else b
  }

  /** A hex digit, lower or upper case. */
  function HexDigit(d: int, upper: bool): (c: char)
    requires 0 <= d < 16
  {
    if d < 10 then ('0' as int + d) as char
    else if upper then ('A' as int + d - 10) as char
    else ('a' as int + d - 10) as char
  }

  /** The value of a hex digit of either case. */
  function HexValue(c: char): int {
    if '0' <= c <= '9' then c as int - '0' as int
    else if 'a' <= c <= 'f' then c as int - 'a' as int + 10
    else if 'A' <= c <= 'F' then c as int - 'A' as int + 10
    else -1
  }

  /** `String.format("%02x", b)`, or `"%02X"`: two hex digits of the unsigned value. */
  function HexByte(b: Byte, upper: bool): (h: string)
    ensures |h| == 2
  {
    var u := Unsigned(b);
    [HexDigit(u / 16, upper), HexDigit(u % 16, upper)]
  }

  /** The bytes written as hex, two digits each. */
  function HexBytes(s: seq<Byte>, upper: bool): (r: seq<string>)
    ensures |r| == |s| && forall i :: 0 <= i < |s| ==> r[i] == HexByte(s[i], upper)
  {
    seq(|s|, i requires 0 <= i < |s| => HexByte(s[i], upper))
  }

  /** The values of a string of hex digit pairs. */
  function FromHex(h: string): seq<int>
    requires |h| % 2 == 0
    decreases |h|
  {
    if h == [] then []
    else FromHex(h[..|h| - 2]) + [16 * HexValue(h[|h| - 2]) + HexValue(h[|h| - 1])]
  }

  /** Reading the two digits back gives the unsigned value, in either case:
      the hex form of a byte determines it. */
  lemma {:induction false} HexByteRoundTrip(b: Byte, upper: bool)
    ensures FromHex(HexByte(b, upper)) == [Unsigned(b)]
  {
    var u := Unsigned(b);
    var h := HexByte(b, upper);
    assert HexValue(h[0]) == u / 16;
    assert HexValue(h[1]) == u % 16;
    assert h[..0] == [];
  }

  /** The upper-case form is the lower-case form with its letters upper-cased. */
  lemma {:induction false} HexByteCase(b: Byte)
    ensures HexByte(b, true) == [ToUpper(HexByte(b, false)[0]), ToUpper(HexByte(b, false)[1])]
  {
  }

  /** `toHexArray(data, uppercase)`: a new array with the hex form of each byte. */
  method ToHexArray(data: array<Byte>, upper: bool) returns (res: array<string>)
    ensures fresh(res) && res[..] == HexBytes(data[..], upper)
  {
    var n := data.Length;
    res := new string[n];
    var i := 0;
    while i < n
      invariant 0 <= i <= n
      invariant forall j :: 0 <= j < i ==> res[j] == HexByte(data[j], upper)
    {
      res[i] := HexByte(data[i], upper);
      i := i + 1;
    }
  }

  /** `toHexString(data, uppercase)`: the hex array joined with a `null`
      delimiter, that is, concatenated. */
  method ToHexString(data: array<Byte>, upper: bool) returns (r: string)
    ensures r == Joined(HexBytes(data[..], upper), "")
  {
    var hex := ToHexArray(data, upper);
    var objects := new Option<string>[hex.Length](i reads hex => if 0 <= i < hex.Length then Some(hex[i]) else None);
    r := Join(objects, None, None, None);
    assert Texts(objects[..]) == hex[..];
  }

  /** Reading `toHexString` back gives the unsigned bytes. */
  lemma {:induction false} HexStringRoundTrip(s: seq<Byte>, upper: bool)
    ensures |Joined(HexBytes(s, upper), "")| == 2 * |s|
    ensures FromHex(Joined(HexBytes(s, upper), "")) == UnsignedAll(s)
    decreases |s|
  {
    if s != [] {
      var n := |s| - 1;
      HexStringRoundTrip(s[..n], upper);
      HexJoinSnoc(s, upper);
      var before := Joined(HexBytes(s[..n], upper), "");
      FromHexAppend(before, HexByte(s[n], upper));
      HexByteRoundTrip(s[n], upper);
      UnsignedAllSnoc(s);
    }
  }

  /** The unsigned value of every byte. */
  function UnsignedAll(s: seq<Byte>): (u: seq<int>)
    ensures |u| == |s|
  {
    seq(|s|, i requires 0 <= i < |s| => Unsigned(s[i]))
  }

  lemma {:induction false} UnsignedAllSnoc(s: seq<Byte>)
    requires |s| > 0
    ensures UnsignedAll(s) == UnsignedAll(s[..|s| - 1]) + [Unsigned(s[|s| - 1])]
  {
  }

  lemma {:induction false} HexJoinSnoc(s: seq<Byte>, upper: bool)
    requires s != []
    ensures Joined(HexBytes(s, upper), "") == Joined(HexBytes(s[..|s| - 1], upper), "") + HexByte(s[|s| - 1], upper)
  {
    var n := |s| - 1;
    assert HexBytes(s, upper) == HexBytes(s[..n], upper) + [HexByte(s[n], upper)];
    JoinedSnoc(HexBytes(s[..n], upper), HexByte(s[n], upper), "");
  }

  lemma {:induction false} FromHexAppend(a: string, h: string)
    requires |a| % 2 == 0 && |h| == 2
    ensures FromHex(a + h) == FromHex(a) + FromHex(h)
  {
    var t := a + h;
    assert t[..|t| - 2] == a;
    assert h[..0] == [];
  }

  /** `ArrayUtilTest.hexify`: 0xff, 0xa3, 0x32, 0xaa, 0x0e as bytes. */
  lemma {:induction false} HexExample()
    ensures Joined(HexBytes([-1, -93, 50, -86, 14], false), "") == "ffa332aa0e"
    ensures Joined(HexBytes([-1, -93, 50, -86, 14], true), "") == "FFA332AA0E"
  {
    HexExampleAt([-1, -93, 50, -86, 14]);
  }

  lemma {:induction false} HexExampleAt(s: seq<Byte>)
    requires s == [-1, -93, 50, -86, 14]
    ensures Joined(HexBytes(s, false), "") == "ffa332aa0e"
    ensures Joined(HexBytes(s, true), "") == "FFA332AA0E"
  {
    HexFive(s, false);
    HexFive(s, true);
    HexLiterals(s[0], s[1], s[2], s[3], s[4]);
  }

  lemma HexLiterals(a: Byte, b: Byte, c: Byte, d: Byte, e: Byte)
    requires a == -1 && b == -93 && c == 50 && d == -86 && e == 14
    ensures HexByte(a, false) + HexByte(b, false) + HexByte(c, false) + HexByte(d, false) + HexByte(e, false) == "ffa332aa0e"
    ensures HexByte(a, true) + HexByte(b, true) + HexByte(c, true) + HexByte(d, true) + HexByte(e, true) == "FFA332AA0E"
  {
  }

  lemma {:induction false} HexFive(s: seq<Byte>, upper: bool)
    requires |s| == 5
    ensures Joined(HexBytes(s, upper), "")
      == HexByte(s[0], upper) + HexByte(s[1], upper) + HexByte(s[2], upper) + HexByte(s[3], upper) + HexByte(s[4], upper)
  {
    var hs := HexBytes(s, upper);
    assert hs[..1] == [hs[0]];
    JoinedPrefix(hs, 1);
    JoinedPrefix(hs, 2);
    JoinedPrefix(hs, 3);
    JoinedPrefix(hs, 4);
    assert hs[..5] == hs;
  }

  /** Without a delimiter, one more element is appended as it is. */
  lemma {:induction false} JoinedPrefix(ps: seq<string>, k: int)
    requires 1 <= k < |ps|
    ensures Joined(ps[..k + 1], "") == Joined(ps[..k], "") + ps[k]
  {
    assert ps[..k + 1][..k] == ps[..k];
  }
}
