/** The text by which a marking is looked up: its fields and their values, sorted and joined
    (dao/dao.ObjectAcm.go). */
module FlatAcm {
  // ----- Order of strings -----

  /** Byte by byte, and a prefix first. */
  predicate AtMost(a: string, b: string) {
    a == [] || (b != [] && (a[0] < b[0] || (a[0] == b[0] && AtMost(a[1..], b[1..]))))
  }

  /** They agree up to some place, where a has the smaller character. */
  predicate SmallerAt(a: string, b: string, k: nat) {
    k < |a| && k < |b| && a[..k] == b[..k] && a[k] < b[k]
  }

  ghost predicate Smaller(a: string, b: string) {
    exists k :: SmallerAt(a, b, k)
  }

  lemma SmallerBehind(c: char, a: string, b: string)
    ensures Smaller([c] + a, [c] + b) <==> Smaller(a, b)
  {
    if k: nat :| SmallerAt(a, b, k) {
      assert ([c] + a)[..k + 1] == [c] + a[..k] && ([c] + b)[..k + 1] == [c] + b[..k];
      assert SmallerAt([c] + a, [c] + b, k + 1);
    }
    if k: nat :| SmallerAt([c] + a, [c] + b, k) {
      assert k > 0 && ([c] + a)[..k][1..] == a[..k - 1] && ([c] + b)[..k][1..] == b[..k - 1];
      assert SmallerAt(a, b, k - 1);
    }
  }

  lemma SmallerAtOnce(a: string, b: string)
    requires a != [] && b != [] && a[0] != b[0]
    ensures Smaller(a, b) <==> a[0] < b[0]
  {
    if a[0] < b[0] {
      assert SmallerAt(a, b, 0);
    }
    forall k | 0 < k < |a| && k < |b|
      ensures a[..k] != b[..k]
    {
      assert a[..k][0] == a[0] && b[..k][0] == b[0];
    }
  }

  /** One is a prefix of the other, or the first character in which they differ is the smaller one. */
  lemma {:induction false} AtMostExactly(a: string, b: string)
    ensures AtMost(a, b) <==> a <= b || Smaller(a, b)
  {
    if a != [] && b != [] {
      if a[0] == b[0] {
        AtMostExactly(a[1..], b[1..]);
        SmallerBehind(a[0], a[1..], b[1..]);
        assert a == [a[0]] + a[1..] && b == [b[0]] + b[1..];
      } else {
        SmallerAtOnce(a, b);
      }
    }
  }

  lemma {:induction false} AtMostTotal(a: string, b: string)
    ensures AtMost(a, b) || AtMost(b, a)
  {
    if a != [] && b != [] {
      AtMostTotal(a[1..], b[1..]);
    }
  }

  lemma {:induction false} AtMostBoth(a: string, b: string)
    requires AtMost(a, b) && AtMost(b, a)
    ensures a == b
  {
    if a != [] {
      AtMostBoth(a[1..], b[1..]);
      assert a == [a[0]] + a[1..] && b == [b[0]] + b[1..];
    }
  }

  lemma {:induction false} AtMostThrough(a: string, b: string, c: string)
    requires AtMost(a, b) && AtMost(b, c)
    ensures AtMost(a, c)
  {
    if a != [] && a[0] == b[0] == c[0] {
      AtMostThrough(a[1..], b[1..], c[1..]);
    }
  }

  predicate Sorted(s: seq<string>) {
    forall i, j :: 0 <= i < j < |s| ==> AtMost(s[i], s[j])
  }

  /** Strings have one sorted order. */
  lemma {:induction false} SortedOneWay(a: seq<string>, b: seq<string>)
    requires Sorted(a) && Sorted(b) && multiset(a) == multiset(b)
    ensures a == b
  {
    if a == [] {
      assert |multiset(a)| == |a| && |multiset(b)| == |b|;
    } else {
      FirstIsSame(a, b);
      RestHolds(a);
      RestHolds(b);
      SortedOneWay(a[1..], b[1..]);
      assert a == [a[0]] + a[1..] && b == [b[0]] + b[1..];
    }
  }

  lemma RestHolds(a: seq<string>)
    requires a != []
    ensures multiset(a[1..]) == multiset(a) - multiset{a[0]}
  {
    assert a == [a[0]] + a[1..];
    assert multiset(a) == multiset{a[0]} + multiset(a[1..]);
  }

  lemma FirstIsSame(a: seq<string>, b: seq<string>)
    requires Sorted(a) && Sorted(b) && multiset(a) == multiset(b) && a != []
    ensures b != [] && a[0] == b[0]
  {
    assert |multiset(a)| == |a| && |multiset(b)| == |b|;
    assert a[0] in multiset(b) && b[0] in multiset(a);
    var i :| 0 <= i < |b| && b[i] == a[0];
    var j :| 0 <= j < |a| && a[j] == b[0];
    AtMostTotal(a[0], a[0]);
    AtMostTotal(b[0], b[0]);
    AtMostBoth(a[0], b[0]);
  }

  function Inserted(s: seq<string>, x: string): seq<string> {
    if s == [] || AtMost(x, s[0]) then [x] + s else [s[0]] + Inserted(s[1..], x)
  }

  /** The standard library's Strings, by its result. */
  function Sort(s: seq<string>): seq<string> {
    if s == [] then [] else Inserted(Sort(s[1..]), s[0])
  }

  lemma {:induction false} InsertedHolds(s: seq<string>, x: string)
    ensures multiset(Inserted(s, x)) == multiset(s) + multiset{x}
  {
    if s != [] && !AtMost(x, s[0]) {
      InsertedHolds(s[1..], x);
      assert s == [s[0]] + s[1..];
    }
  }

  lemma {:induction false} InsertedSorted(s: seq<string>, x: string)
    requires Sorted(s)
    ensures Sorted(Inserted(s, x))
  {
    if s == [] {
    } else if AtMost(x, s[0]) {
      forall i | 0 <= i < |s|
        ensures AtMost(x, s[i])
      {
        if i > 0 {
          AtMostThrough(x, s[0], s[i]);
        }
      }
    } else {
      AtMostTotal(x, s[0]);
      InsertedSorted(s[1..], x);
      InsertedHolds(s[1..], x);
      var rest := Inserted(s[1..], x);
      forall i | 0 <= i < |rest|
        ensures AtMost(s[0], rest[i])
      {
        assert rest[i] in multiset(rest);
        if rest[i] != x {
          assert rest[i] in s[1..];
          var k :| 0 <= k < |s[1..]| && s[1..][k] == rest[i];
          assert s[k + 1] == rest[i];
        }
      }
    }
  }

  lemma {:induction false} SortSorts(s: seq<string>)
    ensures Sorted(Sort(s)) && multiset(Sort(s)) == multiset(s)
  {
    if s != [] {
      SortSorts(s[1..]);
      InsertedSorted(Sort(s[1..]), s[0]);
      InsertedHolds(Sort(s[1..]), s[0]);
      assert s == [s[0]] + s[1..];
    }
  }

  // ----- Joining -----

  function Join(s: seq<string>, sep: char): string {
    if s == [] then "" else if |s| == 1 then s[0] else s[0] + [sep] + Join(s[1..], sep)
  }

  lemma FirstSeparator(a: string, x: string, sep: char)
    requires sep !in a
    ensures var t := a + [sep] + x;
            t[|a|] == sep && t[..|a|] == a && t[|a| + 1..] == x && forall i :: 0 <= i < |a| ==> t[i] != sep
  {
    var t := a + [sep] + x;
    forall i | 0 <= i < |a|
      ensures t[i] != sep
    {
      assert t[i] == a[i] && a[i] in a;
    }
  }

  lemma UpToFirst(a: string, x: string, b: string, y: string, sep: char)
    requires sep !in a && sep !in b && a + [sep] + x == b + [sep] + y
    ensures a == b && x == y
  {
    FirstSeparator(a, x, sep);
    FirstSeparator(b, y, sep);
    assert |a| == |b|;
  }

  predicate Without(s: seq<string>, c: char) {
    forall i :: 0 <= i < |s| ==> c !in s[i]
  }

  lemma {:induction false} JoinWithout(s: seq<string>, sep: char, c: char)
    requires Without(s, c) && c != sep
    ensures c !in Join(s, sep)
  {
    if |s| > 1 {
      JoinWithout(s[1..], sep, c);
    }
  }

  lemma SeparatorShows(s: seq<string>, sep: char)
    requires s != [] && Without(s, sep)
    ensures sep in Join(s, sep) <==> |s| > 1
  {
    if |s| > 1 {
      assert Join(s, sep)[|s[0]|] == sep;
    }
  }

  /** A text is the join of only one list of parts without the separator, once there is a part. */
  lemma {:induction false} JoinOneWay(a: seq<string>, b: seq<string>, sep: char)
    requires a != [] && b != [] && Without(a, sep) && Without(b, sep) && Join(a, sep) == Join(b, sep)
    ensures a == b
  {
    SeparatorShows(a, sep);
    SeparatorShows(b, sep);
    if |a| > 1 {
      UpToFirst(a[0], Join(a[1..], sep), b[0], Join(b[1..], sep), sep);
      JoinOneWay(a[1..], b[1..], sep);
      assert a == [a[0]] + a[1..] && b == [b[0]] + b[1..];
    }
  }

  lemma {:induction false} JoinThen(s: seq<string>, x: string, sep: char)
    ensures Join(s + [x], sep) == if s == [] then x else Join(s, sep) + [sep] + x
  {
    if s == [] {
      assert s + [x] == [x];
    } else {
      JoinThen(s[1..], x, sep);
      assert (s + [x])[1..] == s[1..] + [x];
    }
  }

  // ----- The text of a marking -----

  /** The lists of a marking by name; an element that is no string counts as an empty one. */
  type Acm = map<string, seq<string>>

  /** ObjectAcm.go:20: names that begin with f_, and the countries. */
  predicate IsField(name: string) {
    "f_" <= name || name == "dissem_countries"
  }

  function FieldText(name: string, values: seq<string>): string {
    name + "=" + Join(Sort(values), ',')
  }

  function Fields(names: seq<string>): seq<string> {
    if names == [] then []
    else Fields(names[..|names| - 1]) + (if IsField(names[|names| - 1]) then [names[|names| - 1]] else [])
  }

  function Texts(acm: Acm, names: seq<string>): (t: seq<string>)
    requires forall n :: n in names ==> n in acm
    ensures |t| == |names|
  {
    seq(|names|, i requires 0 <= i < |names| => FieldText(names[i], acm[names[i]]))
  }

  lemma {:induction false} FieldsAre(names: seq<string>, n: string)
    ensures n in Fields(names) <==> n in names && IsField(n)
  {
    if names != [] {
      FieldsAre(names[..|names| - 1], n);
      assert names == names[..|names| - 1] + [names[|names| - 1]];
    }
  }

  lemma SortedHas(keys: seq<string>, n: string)
    ensures n in Sort(keys) <==> n in keys
  {
    SortSorts(keys);
    assert n in multiset(Sort(keys)) <==> n in multiset(keys);
  }

  /** The keys come in the order in which the map is walked. */
  ghost predicate KeysOf(acm: Acm, keys: seq<string>) {
    && (forall k :: k in keys <==> k in acm)
    && (forall i, j :: 0 <= i < j < |keys| ==> keys[i] != keys[j])
  }

  ghost function FieldNames(keys: seq<string>): seq<string> {
    Fields(Sort(keys))
  }

  lemma FieldNamesAre(acm: Acm, keys: seq<string>)
    requires KeysOf(acm, keys)
    ensures forall n :: n in FieldNames(keys) <==> n in acm && IsField(n)
  {
    forall n
      ensures n in FieldNames(keys) <==> n in acm && IsField(n)
    {
      FieldsAre(Sort(keys), n);
      SortedHas(keys, n);
    }
  }

  ghost function Flattened(acm: Acm, keys: seq<string>): string
    requires KeysOf(acm, keys)
  {
    FieldNamesAre(acm, keys);
    Join(Texts(acm, FieldNames(keys)), ';')
  }

  function NonEmpties(values: seq<string>): (r: seq<string>)
    ensures |r| <= |values|
  {
    if values == [] then []
    else
      var last := values[|values| - 1];
      NonEmpties(values[..|values| - 1]) + (if last == "" then [] else [last])
  }

  function Empties(n: nat): (r: seq<string>)
    ensures |r| == n
  {
    seq(n, _ => "")
  }

  function Padded(values: seq<string>): seq<string> {
    NonEmpties(values) + Empties(|values| - |NonEmpties(values)|)
  }

  lemma PaddedAfterEmpty(some: seq<string>)
    ensures Padded(some + [""]) == Padded(some) + [""]
  {
    assert (some + [""])[..|some|] == some;
    assert NonEmpties(some + [""]) == NonEmpties(some) + [];
    var spare := |some| - |NonEmpties(some)|;
    assert Empties(spare + 1) == Empties(spare) + [""];
  }

  lemma InTheMiddle(before: seq<string>, x: string, after: seq<string>)
    ensures multiset(before + [x] + after) == multiset(before + after) + multiset{x}
  {
  }

  lemma PaddedAfterValue(some: seq<string>, last: string)
    requires last != ""
    ensures multiset(Padded(some + [last])) == multiset(Padded(some)) + multiset{last}
  {
    assert (some + [last])[..|some|] == some;
    assert NonEmpties(some + [last]) == NonEmpties(some) + [last];
    var spare := |some| - |NonEmpties(some)|;
    InTheMiddle(NonEmpties(some), last, Empties(spare));
  }

  /** Nothing is lost by moving the empty strings to the end. */
  lemma {:induction false} PaddedHolds(values: seq<string>)
    ensures multiset(Padded(values)) == multiset(values)
  {
    if values != [] {
      var n := |values| - 1;
      PaddedHolds(values[..n]);
      assert values == values[..n] + [values[n]];
      if values[n] == "" {
        PaddedAfterEmpty(values[..n]);
      } else {
        PaddedAfterValue(values[..n], values[n]);
      }
    }
  }

  /** ObjectAcm.go:45-60: the non-empty values first, in an array as long as the list; the slots left over
      stay empty strings. */
  method ArrayOfValues(values: seq<string>) returns (alphaAcmValues: array<string>)
    ensures fresh(alphaAcmValues) && alphaAcmValues[..] == Padded(values)
  {
    alphaAcmValues := new string[|values|](_ => "");
    var av := 0;
    for i := 0 to |values|
      invariant av == |NonEmpties(values[..i])| <= i
      invariant forall k :: av <= k < |values| ==> alphaAcmValues[k] == ""
      invariant alphaAcmValues[..av] == NonEmpties(values[..i])
    {
      assert values[..i + 1][..i] == values[..i];
      if |values[i]| > 0 {
        alphaAcmValues[av] := values[i];
        av := av + 1;
      }
    }
    assert values[..|values|] == values;
    assert alphaAcmValues[..] == alphaAcmValues[..av] + alphaAcmValues[av..];
    assert alphaAcmValues[av..] == Empties(|values| - av);
  }

  lemma SortDependsOnHolding(a: seq<string>, b: seq<string>)
    requires multiset(a) == multiset(b)
    ensures Sort(a) == Sort(b)
  {
    SortSorts(a);
    SortSorts(b);
    SortedOneWay(Sort(a), Sort(b));
  }

  lemma TextsThen(acm: Acm, names: seq<string>, name: string)
    requires name in acm && forall n :: n in names ==> n in acm
    ensures forall n :: n in names + [name] ==> n in acm
    ensures Join(Texts(acm, names + [name]), ';') ==
            (if names == [] then "" else Join(Texts(acm, names), ';') + ";") + FieldText(name, acm[name])
  {
    JoinThen(Texts(acm, names), FieldText(name, acm[name]), ';');
    assert Texts(acm, names + [name]) == Texts(acm, names) + [FieldText(name, acm[name])];
  }

  /** ObjectAcm.go:41-64: the text of one field. */
  method FlattenField(name: string, values: seq<string>) returns (text: string)
    ensures text == FieldText(name, values)
  {
    text := name + "=";
    var alphaAcmValues := ArrayOfValues(values);
    PaddedHolds(values);
    SortDependsOnHolding(alphaAcmValues[..], values);
    text := text + Join(Sort(alphaAcmValues[..]), ',');
  }

  /** ObjectAcm.go:22-69. */
  method GetOverallFlattenedACM(acm: Acm, keys: seq<string>) returns (flattenedACM: string)
    requires KeysOf(acm, keys)
    ensures flattenedACM == Flattened(acm, keys)
  {
    var alphaAcmKeys := Sort(keys);
    FieldNamesAre(acm, keys);
    flattenedACM := "";
    ghost var names: seq<string> := [];
    var fieldOutputCounter := 0;
    for i := 0 to |alphaAcmKeys|
      invariant names == Fields(alphaAcmKeys[..i]) && fieldOutputCounter == |names|
      invariant forall n :: n in names ==> n in acm
      invariant flattenedACM == Join(Texts(acm, names), ';')
    {
      var name := alphaAcmKeys[i];
      assert alphaAcmKeys[..i + 1][..i] == alphaAcmKeys[..i];
      SortedHas(keys, name);
      if IsField(name) {
        TextsThen(acm, names, name);
        if fieldOutputCounter > 0 {
          flattenedACM := flattenedACM + ";";
        }
        fieldOutputCounter := fieldOutputCounter + 1;
        var text := FlattenField(name, acm[name]);
        flattenedACM := flattenedACM + text;
        names := names + [name];
      }
    }
    assert alphaAcmKeys[..|alphaAcmKeys|] == alphaAcmKeys;
  }

  // ----- Canonical -----

  /** No value, or one that is empty. */
  predicate Blank(values: seq<string>) {
    values == [] || values == [""]
  }

  /** The same values, as often, whatever their order. An empty value on its own is like none. */
  ghost predicate SameValues(v: seq<string>, w: seq<string>) {
    multiset(v) == multiset(w) || (Blank(v) && Blank(w))
  }

  ghost predicate SameFields(a: Acm, b: Acm) {
    && (forall n :: IsField(n) ==> (n in a <==> n in b))
    && (forall n :: IsField(n) && n in a && n in b ==> SameValues(a[n], b[n]))
  }

  lemma SameValuesSameText(v: seq<string>, w: seq<string>)
    requires SameValues(v, w)
    ensures Join(Sort(v), ',') == Join(Sort(w), ',')
  {
    if multiset(v) == multiset(w) {
      SortDependsOnHolding(v, w);
    }
  }

  lemma {:induction false} FieldsSorted(names: seq<string>)
    requires Sorted(names)
    ensures Sorted(Fields(names))
  {
    if names != [] {
      var n := |names| - 1;
      FieldsSorted(names[..n]);
      forall x | x in Fields(names[..n])
        ensures AtMost(x, names[n])
      {
        FieldsAre(names[..n], x);
        var i :| 0 <= i < n && names[i] == x;
      }
    }
  }

  predicate Distinct(s: seq<string>) {
    forall i, j :: 0 <= i < j < |s| ==> s[i] != s[j]
  }

  lemma {:induction false} DistinctHoldsOnce(s: seq<string>, x: string)
    requires Distinct(s)
    ensures multiset(s)[x] == if x in s then 1 else 0
  {
    if s != [] {
      DistinctHoldsOnce(s[1..], x);
      assert s == [s[0]] + s[1..];
      assert x in s[1..] ==> x != s[0];
    }
  }

  lemma AppendHolds(s: seq<string>, y: string, x: string)
    ensures multiset(s + [y])[x] == multiset(s)[x] + (if x == y then 1 else 0)
  {
  }

  lemma {:induction false} FieldsHold(names: seq<string>, x: string)
    ensures multiset(Fields(names))[x] == if IsField(x) then multiset(names)[x] else 0
  {
    if names != [] {
      var n := |names| - 1;
      FieldsHold(names[..n], x);
      assert names == names[..n] + [names[n]];
      AppendHolds(names[..n], names[n], x);
      if IsField(names[n]) {
        AppendHolds(Fields(names[..n]), names[n], x);
      } else {
        assert Fields(names) == Fields(names[..n]);
      }
    }
  }

  /** The names come out in one order, however the map was walked. */
  lemma NamesOneWay(a: Acm, keysA: seq<string>, b: Acm, keysB: seq<string>)
    requires KeysOf(a, keysA) && KeysOf(b, keysB)
    requires forall n :: IsField(n) ==> (n in a <==> n in b)
    ensures FieldNames(keysA) == FieldNames(keysB)
  {
    SortSorts(keysA);
    SortSorts(keysB);
    FieldsSorted(Sort(keysA));
    FieldsSorted(Sort(keysB));
    forall x
      ensures multiset(FieldNames(keysA))[x] == multiset(FieldNames(keysB))[x]
    {
      FieldsHold(Sort(keysA), x);
      FieldsHold(Sort(keysB), x);
      DistinctHoldsOnce(keysA, x);
      DistinctHoldsOnce(keysB, x);
    }
    assert multiset(FieldNames(keysA)) == multiset(FieldNames(keysB));
    SortedOneWay(FieldNames(keysA), FieldNames(keysB));
  }

  /** The text does not depend on the order of the fields or of their values, nor on what else there is. */
  lemma TextIsCanonical(a: Acm, keysA: seq<string>, b: Acm, keysB: seq<string>)
    requires KeysOf(a, keysA) && KeysOf(b, keysB) && SameFields(a, b)
    ensures Flattened(a, keysA) == Flattened(b, keysB)
  {
    NamesOneWay(a, keysA, b, keysB);
    FieldNamesAre(a, keysA);
    FieldNamesAre(b, keysB);
    var names := FieldNames(keysA);
    forall i | 0 <= i < |names|
      ensures Texts(a, names)[i] == Texts(b, names)[i]
    {
      assert names[i] in names;
      SameValuesSameText(a[names[i]], b[names[i]]);
    }
    assert Texts(a, names) == Texts(b, names);
  }

  // ----- Faithful -----

  /** Names without the marks that divide fields and values, and values without them too. */
  ghost predicate Plain(acm: Acm) {
    forall n :: n in acm && IsField(n) ==>
      '=' !in n && ';' !in n && Without(acm[n], ';') && Without(acm[n], ',')
  }

  lemma SortWithout(values: seq<string>, c: char)
    requires Without(values, c)
    ensures Without(Sort(values), c)
  {
    forall i | 0 <= i < |Sort(values)|
      ensures c !in Sort(values)[i]
    {
      var x := Sort(values)[i];
      SortedHas(values, x);
      assert x in Sort(values);
      var k :| 0 <= k < |values| && values[k] == x;
    }
  }

  lemma FieldTextWithout(acm: Acm, n: string)
    requires Plain(acm) && n in acm && IsField(n)
    ensures ';' !in FieldText(n, acm[n])
  {
    SortWithout(acm[n], ';');
    JoinWithout(Sort(acm[n]), ',', ';');
  }

  lemma NoTextIsBlank(values: seq<string>)
    requires Without(values, ',') && Join(Sort(values), ',') == ""
    ensures Blank(values)
  {
    SortSorts(values);
    SortWithout(values, ',');
    assert |multiset(values)| == |values| && |multiset(Sort(values))| == |Sort(values)|;
    if Sort(values) != [] {
      SeparatorShows(Sort(values), ',');
      assert Sort(values) == [""];
      assert values[0] in multiset(values);
      assert values == [values[0]];
    }
  }

  /** The values of a field can be read off its text. */
  lemma ValuesFromText(v: seq<string>, w: seq<string>)
    requires Without(v, ',') && Without(w, ',') && Join(Sort(v), ',') == Join(Sort(w), ',')
    ensures SameValues(v, w)
  {
    SortSorts(v);
    SortSorts(w);
    SortWithout(v, ',');
    SortWithout(w, ',');
    if Sort(v) != [] && Sort(w) != [] {
      JoinOneWay(Sort(v), Sort(w), ',');
    } else {
      NoTextIsBlank(v);
      NoTextIsBlank(w);
    }
  }

  lemma FieldsFromText(a: Acm, keysA: seq<string>, b: Acm, keysB: seq<string>)
    requires KeysOf(a, keysA) && KeysOf(b, keysB) && Plain(a) && Plain(b)
    requires Flattened(a, keysA) == Flattened(b, keysB)
    ensures SameFields(a, b)
  {
    FieldNamesAre(a, keysA);
    FieldNamesAre(b, keysB);
    var namesA, namesB := FieldNames(keysA), FieldNames(keysB);
    SameTexts(a, namesA, b, namesB);
    assert |namesA| == |namesB|;
    forall i | 0 <= i < |namesA|
      ensures namesA[i] == namesB[i] && SameValues(a[namesA[i]], b[namesB[i]])
    {
      FieldFromText(a, namesA, b, namesB, i);
    }
    assert namesA == namesB;
    forall n | IsField(n) && n in a && n in b
      ensures SameValues(a[n], b[n])
    {
      assert n in namesA;
      var i :| 0 <= i < |namesA| && namesA[i] == n;
    }
  }

  /** The names that count, letter by letter. */
  predicate Counts(name: string) {
    || (|name| >= 2 && name[0] == 'f' && name[1] == '_')
    || name == ['d', 'i', 's', 's', 'e', 'm', '_', 'c', 'o', 'u', 'n', 't', 'r', 'i', 'e', 's']
  }

  lemma CountsIs(name: string)
    ensures Counts(name) <==> IsField(name)
  {
    assert "f_" <= name <==> |name| >= 2 && name[..2] == "f_";
    assert |name| >= 2 ==> name[..2] == [name[0], name[1]];
  }

  /** Looking a marking up by its text finds the markings with the same values of the names that count, and no
      other. */
  lemma TextIsFaithful(a: Acm, keysA: seq<string>, b: Acm, keysB: seq<string>)
    requires KeysOf(a, keysA) && KeysOf(b, keysB) && Plain(a) && Plain(b)
    ensures Flattened(a, keysA) == Flattened(b, keysB) <==>
            && (forall n :: Counts(n) ==> (n in a <==> n in b))
            && (forall n :: Counts(n) && n in a && n in b ==> SameValues(a[n], b[n]))
  {
    forall n
      ensures Counts(n) <==> IsField(n)
    {
      CountsIs(n);
    }
    if SameFields(a, b) {
      TextIsCanonical(a, keysA, b, keysB);
    } else if Flattened(a, keysA) == Flattened(b, keysB) {
      FieldsFromText(a, keysA, b, keysB);
    }
  }

  /** Markings that differ in the countries they may be given to have different texts. */
  lemma CountriesTell(a: Acm, keysA: seq<string>, b: Acm, keysB: seq<string>)
    requires KeysOf(a, keysA) && KeysOf(b, keysB) && Plain(a) && Plain(b)
    requires ("dissem_countries" in a) != ("dissem_countries" in b)
             || ("dissem_countries" in a && !SameValues(a["dissem_countries"], b["dissem_countries"]))
    ensures Flattened(a, keysA) != Flattened(b, keysB)
  {
    TextIsFaithful(a, keysA, b, keysB);
    assert Counts("dissem_countries");
  }

  lemma SortTwo(x: string, y: string)
    requires AtMost(x, y) && x != y
    ensures Sort([x, y]) == [x, y] && Sort([y, x]) == [x, y]
  {
    if AtMost(y, x) {
      AtMostBoth(x, y);
    }
    assert Sort([x]) == [x] && Sort([y]) == [y];
    assert [x, y][1..] == [y] && [y, x][1..] == [x];
  }

  const COUNTRIES := "dissem_countries"

  lemma NamesRead()
    ensures FieldNames(["v", "f_a", COUNTRIES]) == [COUNTRIES, "f_a"]
  {
    var keys := ["v", "f_a", COUNTRIES];
    SortTwo(COUNTRIES, "f_a");
    assert keys[1..] == ["f_a", COUNTRIES];
    assert !AtMost("v", COUNTRIES) && !AtMost("v", "f_a");
    assert Inserted([], "v") == ["v"] && ["f_a"][1..] == [] && [COUNTRIES, "f_a"][1..] == ["f_a"];
    assert Inserted(["f_a"], "v") == ["f_a", "v"];
    assert Sort(keys) == [COUNTRIES, "f_a", "v"];
    CountsIs("v");
    CountsIs("f_a");
    CountsIs(COUNTRIES);
    var names := [COUNTRIES, "f_a"];
    assert Sort(keys)[..2] == names && names[..1] == [COUNTRIES] && names[..1][..0] == [];
    assert Fields(names[..1][..0]) == [];
    assert Fields(names[..1]) == [COUNTRIES];
    assert Fields(names) == names;
  }

  lemma JoinTwo(x: string, y: string, sep: char)
    ensures Join([x, y], sep) == x + [sep] + y
  {
    assert [x, y][1..] == [y];
  }

  lemma FieldsRead(c: string, x: string, y: string)
    requires AtMost(x, y) && x != y
    ensures FieldText(COUNTRIES, [c]) == "dissem_countries=" + c
    ensures FieldText("f_a", [y, x]) == "f_a=" + (x + "," + y)
  {
    SortTwo(x, y);
    JoinTwo(x, y, ',');
    assert Sort([c]) == [c];
  }

  /** The text itself, of a marking with countries and one field. */
  lemma TextReads(acm: Acm, c: string, x: string, y: string, other: seq<string>)
    requires AtMost(x, y) && x != y
    requires acm == map["f_a" := [y, x], "dissem_countries" := [c], "v" := other]
    ensures KeysOf(acm, ["v", "f_a", "dissem_countries"])
    ensures Flattened(acm, ["v", "f_a", "dissem_countries"]) ==
            ("dissem_countries=" + c) + ";" + ("f_a=" + (x + "," + y))
  {
    NamesRead();
    FieldsRead(c, x, y);
    var texts := ["dissem_countries=" + c, "f_a=" + (x + "," + y)];
    assert Texts(acm, [COUNTRIES, "f_a"]) == texts;
    JoinTwo(texts[0], texts[1], ';');
  }

  ghost predicate NamesOf(acm: Acm, names: seq<string>) {
    forall n :: n in names <==> n in acm && IsField(n)
  }

  lemma TextsWithout(acm: Acm, names: seq<string>)
    requires Plain(acm) && NamesOf(acm, names)
    ensures Without(Texts(acm, names), ';')
    ensures names != [] ==> Join(Texts(acm, names), ';') != ""
  {
    var texts := Texts(acm, names);
    forall i | 0 <= i < |texts|
      ensures ';' !in texts[i]
    {
      assert names[i] in names;
      FieldTextWithout(acm, names[i]);
    }
    if names != [] {
      assert |texts[0]| > 0;
    }
  }

  lemma SameTexts(a: Acm, namesA: seq<string>, b: Acm, namesB: seq<string>)
    requires Plain(a) && Plain(b) && NamesOf(a, namesA) && NamesOf(b, namesB)
    requires Join(Texts(a, namesA), ';') == Join(Texts(b, namesB), ';')
    ensures Texts(a, namesA) == Texts(b, namesB)
  {
    TextsWithout(a, namesA);
    TextsWithout(b, namesB);
    if namesA != [] && namesB != [] {
      JoinOneWay(Texts(a, namesA), Texts(b, namesB), ';');
    }
  }

  lemma FieldFromText(a: Acm, namesA: seq<string>, b: Acm, namesB: seq<string>, i: nat)
    requires Plain(a) && Plain(b) && NamesOf(a, namesA) && NamesOf(b, namesB)
    requires i < |namesA| && Texts(a, namesA) == Texts(b, namesB)
    ensures i < |namesB| && namesA[i] == namesB[i] && namesA[i] in a && namesB[i] in b
    ensures SameValues(a[namesA[i]], b[namesB[i]])
  {
    assert |Texts(a, namesA)| == |Texts(b, namesB)|;
    var n, m := namesA[i], namesB[i];
    assert n in namesA && m in namesB;
    assert Texts(a, namesA)[i] == Texts(b, namesB)[i];
    var x, y := Join(Sort(a[n]), ','), Join(Sort(b[m]), ',');
    assert n + ['='] + x == m + ['='] + y;
    UpToFirst(n, x, m, y, '=');
    ValuesFromText(a[n], b[m]);
  }
}
