/** A user's snippets stored as rows and read back (dao/dao.UserAOCache.go). */
module SnippetRows {
  import opened AcmIndex

  /** A row as it is read: a missing value comes as the empty string. */
  datatype Read = Read(key: Name, isAllowed: bool, value: Name)

  function AsRead(r: Row): Read {
    Read(r.key, r.allowed, match r.value case Null => "" case Of(v) => v)
  }

  /** The rows of a key come together, which reading them in the order of their keys provides. */
  predicate KeysTogether(rows: seq<Read>) {
    forall i, j, k :: 0 <= i < j < k < |rows| && rows[i].key == rows[k].key ==> rows[j].key == rows[i].key
  }

  /** The values that rows have for a key, without the empty ones. */
  function ValuesFor(rows: seq<Read>, key: Name): set<Name> {
    set r | r in rows && r.key == key && r.value != "" :: r.value
  }

  function Values(f: Field): set<Name> {
    set v | v in f.values
  }

  predicate HasField(fields: seq<Field>, key: Name) {
    exists f :: f in fields && f.name == key
  }

  /** A field is what the rows of its key say. */
  ghost predicate FieldOf(f: Field, rows: seq<Read>) {
    && Values(f) == ValuesFor(rows, f.name)
    && exists r :: r in rows && r.key == f.name && r.isAllowed == f.treatment.Allowed?
  }

  // ----- The code -----

  function Opened(fields: seq<Field>, row: Read): seq<Field> {
    fields + [Field(row.key, if row.isAllowed then Allowed else Disallow, [])]
  }

  function Extended(fields: seq<Field>, value: Name): seq<Field>
    requires fields != []
  {
    var last := |fields| - 1;
    if value == "" then fields else fields[last := fields[last].(values := fields[last].values + [value])]
  }

  /** A new field is begun whenever the key changes. */
  function Converted(rows: seq<Read>): (fields: seq<Field>)
    ensures rows != [] ==> fields != []
  {
    if rows == [] then []
    else
      var n := |rows| - 1;
      var before := Converted(rows[..n]);
      Extended(if n == 0 || rows[n - 1].key != rows[n].key then Opened(before, rows[n]) else before, rows[n].value)
  }

  predicate Begins(rows: seq<Read>, i: nat)
    requires i < |rows|
  {
    i == 0 || rows[i - 1].key != rows[i].key
  }

  lemma ConvertedOneMore(rows: seq<Read>, i: nat)
    requires i < |rows|
    ensures var before := Converted(rows[..i]);
            Converted(rows[..i + 1]) == Extended(if Begins(rows, i) then Opened(before, rows[i]) else before, rows[i].value)
  {
    assert rows[..i + 1][..i] == rows[..i];
  }

  /** dao.UserAOCache.go:461-481. */
  method ConvertCacheSnippets(rows: seq<Read>) returns (fields: seq<Field>)
    requires forall r :: r in rows ==> r.key != ""
    ensures fields == Converted(rows)
  {
    fields := [];
    var key := "";
    for i := 0 to |rows|
      invariant fields == Converted(rows[..i]) && key == if i == 0 then "" else rows[i - 1].key
    {
      var row := rows[i];
      assert row in rows;
      ConvertedOneMore(rows, i);
      if key != row.key {
        fields := fields + [Field(row.key, if row.isAllowed then Allowed else Disallow, [])];
        key := row.key;
      }
      var last := |fields| - 1;
      if |row.value| > 0 {
        fields := fields[last := fields[last].(values := fields[last].values + [row.value])];
      }
    }
    assert rows[..|rows|] == rows;
  }

  // ----- What comes out -----

  lemma ValuesForThen(rows: seq<Read>, r: Read, key: Name)
    ensures ValuesFor(rows + [r], key) == ValuesFor(rows, key) + (if r.key == key && r.value != "" then {r.value} else {})
  {
  }

  lemma OtherFieldStays(f: Field, rows: seq<Read>, r: Read)
    requires FieldOf(f, rows) && r.key != f.name
    ensures FieldOf(f, rows + [r])
  {
    ValuesForThen(rows, r, f.name);
    var q :| q in rows && q.key == f.name && q.isAllowed == f.treatment.Allowed?;
    assert q in rows + [r];
  }

  lemma SameFieldGrows(f: Field, rows: seq<Read>, r: Read)
    requires FieldOf(f, rows) && r.key == f.name
    ensures FieldOf(if r.value == "" then f else f.(values := f.values + [r.value]), rows + [r])
  {
    ValuesForThen(rows, r, f.name);
    var q :| q in rows && q.key == f.name && q.isAllowed == f.treatment.Allowed?;
    assert q in rows + [r];
  }

  lemma FreshFieldStarts(rows: seq<Read>, r: Read)
    requires forall q :: q in rows ==> q.key != r.key
    ensures var f := Field(r.key, if r.isAllowed then Allowed else Disallow, []);
            FieldOf(if r.value == "" then f else f.(values := f.values + [r.value]), rows + [r])
  {
    ValuesForThen(rows, r, r.key);
    assert r in rows + [r];
  }

  /** One field for each key, saying what the key's rows say; the last field is that of the last row. */
  ghost predicate Grouped(rows: seq<Read>, fields: seq<Field>) {
    && DistinctNames(fields)
    && (forall i :: 0 <= i < |fields| ==> FieldOf(fields[i], rows))
    && (forall r :: r in rows ==> HasField(fields, r.key))
    && (rows != [] ==> fields != [] && fields[|fields| - 1].name == rows[|rows| - 1].key)
  }

  lemma KeyIsFresh(rows: seq<Read>, n: nat)
    requires n < |rows| && KeysTogether(rows) && (n == 0 || rows[n - 1].key != rows[n].key)
    ensures forall q :: q in rows[..n] ==> q.key != rows[n].key
  {
    forall q | q in rows[..n]
      ensures q.key != rows[n].key
    {
      var i :| 0 <= i < n && rows[i] == q;
      var key, before, at := rows[i].key, rows[n - 1].key, rows[n].key;
      assert key == at ==> before == at;
    }
  }

  lemma StillHasField(fields: seq<Field>, fields': seq<Field>, key: Name)
    requires |fields| <= |fields'| && forall i :: 0 <= i < |fields| ==> fields'[i].name == fields[i].name
    requires HasField(fields, key)
    ensures HasField(fields', key)
  {
    var f :| f in fields && f.name == key;
    var i :| 0 <= i < |fields| && fields[i] == f;
    assert fields'[i] in fields';
  }

  /** The next row begins a field, or belongs to that of the row before. */
  predicate Continues(rows: seq<Read>, r: Read, begins: bool) {
    if begins then forall q :: q in rows ==> q.key != r.key else rows != [] && r.key == rows[|rows| - 1].key
  }

  lemma GroupsOneMore(rows: seq<Read>, fields: seq<Field>, r: Read, begins: bool)
    requires Grouped(rows, fields)
    requires Continues(rows, r, begins)
    ensures var all := Extended(if begins then Opened(fields, r) else fields, r.value);
            && (forall i :: 0 <= i < |all| ==> FieldOf(all[i], rows + [r]))
            && (forall q :: q in rows + [r] ==> HasField(all, q.key))
  {
    var begun := if begins then Opened(fields, r) else fields;
    var all := Extended(begun, r.value);
    var last := |all| - 1;
    forall i | 0 <= i < |all|
      ensures FieldOf(all[i], rows + [r])
    {
      if i < last {
        if begins {
          var q :| q in rows && q.key == fields[i].name;
        }
        OtherFieldStays(fields[i], rows, r);
      } else if begins {
        FreshFieldStarts(rows, r);
      } else {
        SameFieldGrows(fields[last], rows, r);
      }
    }
    forall q | q in rows + [r]
      ensures HasField(all, q.key)
    {
      if q in rows {
        StillHasField(fields, all, q.key);
      } else {
        assert all[last] in all && all[last].name == r.key;
      }
    }
  }

  lemma NamesStayDistinct(rows: seq<Read>, fields: seq<Field>, r: Read, begins: bool)
    requires Grouped(rows, fields)
    requires Continues(rows, r, begins)
    ensures var all := Extended(if begins then Opened(fields, r) else fields, r.value);
            DistinctNames(all) && all[|all| - 1].name == r.key
  {
    forall i | 0 <= i < |fields| && begins
      ensures fields[i].name != r.key
    {
      assert FieldOf(fields[i], rows);
    }
  }

  lemma GroupedThen(rows: seq<Read>, r: Read, fields: seq<Field>, begins: bool)
    requires Grouped(rows, fields)
    requires Continues(rows, r, begins)
    ensures Grouped(rows + [r], Extended(if begins then Opened(fields, r) else fields, r.value))
  {
    NamesStayDistinct(rows, fields, r, begins);
    GroupsOneMore(rows, fields, r, begins);
  }

  lemma NextContinues(rows: seq<Read>, i: nat)
    requires i < |rows| && KeysTogether(rows)
    ensures Continues(rows[..i], rows[i], Begins(rows, i))
  {
    if Begins(rows, i) {
      KeyIsFresh(rows, i);
    }
  }

  lemma GroupedOneMore(some: seq<Read>, r: Read, fields: seq<Field>, begins: bool, more: seq<Read>, all: seq<Field>)
    requires Grouped(some, fields) && Continues(some, r, begins) && more == some + [r]
    requires all == Extended(if begins then Opened(fields, r) else fields, r.value)
    ensures Grouped(more, all)
  {
    GroupedThen(some, r, fields, begins);
  }

  lemma ConvertedSteps(rows: seq<Read>, some: seq<Read>, r: Read, begins: bool)
    requires rows == some + [r] && KeysTogether(rows) && begins == Begins(rows, |some|)
    ensures KeysTogether(some) && Continues(some, r, begins)
    ensures Converted(rows) == Extended(if begins then Opened(Converted(some), r) else Converted(some), r.value)
  {
    var n := |some|;
    assert rows[..n] == some && rows[..n + 1] == rows;
    NextContinues(rows, n);
    ConvertedOneMore(rows, n);
  }

  lemma {:induction false} ConvertedIsGrouped(rows: seq<Read>)
    requires KeysTogether(rows)
    ensures Grouped(rows, Converted(rows))
  {
    if rows != [] {
      var n := |rows| - 1;
      var some, r, begins := rows[..n], rows[n], Begins(rows, n);
      ConvertedSteps(rows, some, r, begins);
      ConvertedIsGrouped(some);
      GroupedOneMore(some, r, Converted(some), begins, rows, Converted(rows));
    }
  }

  // ----- There and back -----

  /** What is read for a user: the stored rows, ordered by key. */
  ghost predicate ReadFrom(rows: seq<Read>, stored: set<Row>) {
    && KeysTogether(rows)
    && (forall r :: r in stored ==> AsRead(r) in rows)
    && (forall q :: q in rows ==> exists r :: r in stored && AsRead(r) == q)
  }

  lemma ReadRowComesFrom(snippets: seq<Field>, rows: seq<Read>, q: Read) returns (f: Field)
    requires ReadFrom(rows, RowsOf(snippets)) && q in rows
    ensures f in snippets && f.name == q.key && f.treatment.Allowed? == q.isAllowed
    ensures q.value != "" ==> q.value in f.values
  {
    var r :| r in RowsOf(snippets) && AsRead(r) == q;
    f := RowComesFrom(snippets, r);
  }

  lemma FieldIsRead(snippets: seq<Field>, rows: seq<Read>, f: Field)
    requires ReadFrom(rows, RowsOf(snippets)) && f in snippets
    ensures forall v :: v in f.values ==> Read(f.name, f.treatment.Allowed?, v) in rows
    ensures exists q :: q in rows && q.key == f.name
  {
    forall v | v in f.values
      ensures Read(f.name, f.treatment.Allowed?, v) in rows
    {
      var r := Row(f.treatment.Allowed?, f.name, Of(v));
      assert r in RowsOf(snippets) && AsRead(r) in rows;
    }
    if f.values == [] {
      var r := Row(f.treatment.Allowed?, f.name, Null);
      assert r in RowsOf(snippets) && AsRead(r) in rows;
    } else {
      var v := f.values[0];
      assert v in f.values && Read(f.name, f.treatment.Allowed?, v) in rows;
    }
  }

  lemma ValuesComeBack(snippets: seq<Field>, rows: seq<Read>, g: Field)
    requires DistinctNames(snippets) && ReadFrom(rows, RowsOf(snippets)) && g in snippets
    ensures ValuesFor(rows, g.name) == Values(g) - {""}
  {
    FieldIsRead(snippets, rows, g);
    forall v | v in ValuesFor(rows, g.name)
      ensures v in Values(g) && v != ""
    {
      var q :| q in rows && q.key == g.name && q.value != "" && q.value == v;
      var h := ReadRowComesFrom(snippets, rows, q);
      NamesakeIsSame(snippets, g, h);
    }
  }

  /** Reading a user's rows back gives each field with its treatment and its values, but for order,
      repetition and empty values; and no other fields. */
  lemma SnippetsComeBack(snippets: seq<Field>, rows: seq<Read>, f: Field)
    requires DistinctNames(snippets) && ReadFrom(rows, RowsOf(snippets)) && f in Converted(rows)
    ensures exists g :: g in snippets && SameField(f, g)
  {
    ConvertedIsGrouped(rows);
    var fields := Converted(rows);
    var i :| 0 <= i < |fields| && fields[i] == f;
    assert FieldOf(fields[i], rows);
    var q :| q in rows && q.key == f.name && q.isAllowed == f.treatment.Allowed?;
    var g := ReadRowComesFrom(snippets, rows, q);
    ValuesComeBack(snippets, rows, g);
    assert SameField(f, g);
  }

  ghost predicate SameField(f: Field, g: Field) {
    f.name == g.name && f.treatment == g.treatment && Values(f) == Values(g) - {""}
  }

  lemma NoSnippetLost(snippets: seq<Field>, rows: seq<Read>, g: Field)
    requires DistinctNames(snippets) && ReadFrom(rows, RowsOf(snippets)) && g in snippets
    ensures exists f :: f in Converted(rows) && SameField(f, g)
  {
    ConvertedIsGrouped(rows);
    FieldIsRead(snippets, rows, g);
    var q :| q in rows && q.key == g.name;
    assert HasField(Converted(rows), q.key);
    var f :| f in Converted(rows) && f.name == g.name;
    SnippetsComeBack(snippets, rows, f);
    var h :| h in snippets && SameField(f, h);
    NamesakeIsSame(snippets, g, h);
  }

  lemma SameFieldSameAnswer(f: Field, g: Field, acm: set<Part>)
    requires SameField(f, g) && NoBlankValues(acm)
    ensures FieldAdmits(f, acm) <==> FieldAdmits(g, acm)
  {
    forall p | p in acm
      ensures p.value in f.values <==> p.value in g.values
    {
      assert p.value in Values(f) <==> p.value in Values(g) - {""};
    }
  }

  /** So whether a user may see a marking can be answered from the stored rows just as from the snippets
      they came from. */
  lemma RowsAnswerAlike(snippets: seq<Field>, rows: seq<Read>, acm: set<Part>)
    requires DistinctNames(snippets) && ReadFrom(rows, RowsOf(snippets)) && NoBlankValues(acm)
    ensures UserMaySee(Converted(rows), acm) <==> UserMaySee(snippets, acm)
  {
    if UserMaySee(snippets, acm) {
      forall f | f in Converted(rows)
        ensures FieldAdmits(f, acm)
      {
        SnippetsComeBack(snippets, rows, f);
        var g :| g in snippets && SameField(f, g);
        SameFieldSameAnswer(f, g, acm);
      }
    }
    if UserMaySee(Converted(rows), acm) {
      forall g | g in snippets
        ensures FieldAdmits(g, acm)
      {
        NoSnippetLost(snippets, rows, g);
        var f :| f in Converted(rows) && SameField(f, g);
        SameFieldSameAnswer(f, g, acm);
      }
    }
  }
}
