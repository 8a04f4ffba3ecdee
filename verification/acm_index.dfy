/** Which access control markings a user may see, asked in both directions, and the table of links that
    caches the answer (dao/dao.UserAOCache.go). A query is the set of rows it selects. */
module AcmIndex {
  type Name = string
  type UserId = int
  type AcmId = int

  /** A value that a marking has under a key. Blank values are never stored. */
  datatype Part = Part(key: Name, value: Name)

  datatype Treatment = Allowed | Disallow

  /** What a user's snippets say about one field. */
  datatype Field = Field(name: Name, treatment: Treatment, values: seq<Name>)

  /** A stored row of a user's snippets; a field without values has a row with none. */
  datatype Value = Null | Of(name: Name)
  datatype Row = Row(allowed: bool, key: Name, value: Value)

  // ----- From user to markings -----

  /** dao.UserAOCache.go:487-515: the condition of one field. */
  predicate FieldAdmits(f: Field, acm: set<Part>) {
    match f.treatment
    case Disallow => forall p :: p in acm && p.key == f.name ==> p.value != "" && p.value !in f.values
    case Allowed =>
      || (forall p :: p in acm ==> p.key != f.name)
      || (exists p :: p in acm && p.key == f.name && (p.value == "" || p.value in f.values))
  }

  predicate UserMaySee(snippets: seq<Field>, acm: set<Part>) {
    forall f :: f in snippets ==> FieldAdmits(f, acm)
  }

  /** A value that a field names, or a blank one. */
  predicate Names(f: Field, v: Name) {
    v == "" || exists i :: 0 <= i < |f.values| && f.values[i] == v
  }

  /** What a user may see, value by value: a marking with no value under the name of any disallow field that the
      field names, and, under the name of each allowed field, with no value at all or one that the field names. */
  lemma MaySeeExactly(snippets: seq<Field>, acm: set<Part>)
    ensures UserMaySee(snippets, acm) <==>
            forall i :: 0 <= i < |snippets| ==>
              var f := snippets[i];
              if f.treatment.Disallow? then forall v :: Part(f.name, v) in acm ==> !Names(f, v)
              else (forall v :: Part(f.name, v) !in acm) || exists v :: Part(f.name, v) in acm && Names(f, v)
  {
    forall i | 0 <= i < |snippets|
      ensures var f := snippets[i];
              FieldAdmits(f, acm) <==>
              if f.treatment.Disallow? then forall v :: Part(f.name, v) in acm ==> !Names(f, v)
              else (forall v :: Part(f.name, v) !in acm) || exists v :: Part(f.name, v) in acm && Names(f, v)
    {
      AdmitsExactly(snippets[i], acm);
    }
    assert UserMaySee(snippets, acm) <==> forall i :: 0 <= i < |snippets| ==> FieldAdmits(snippets[i], acm);
  }

  lemma AdmitsExactly(f: Field, acm: set<Part>)
    ensures FieldAdmits(f, acm) <==>
            if f.treatment.Disallow? then forall v :: Part(f.name, v) in acm ==> !Names(f, v)
            else (forall v :: Part(f.name, v) !in acm) || exists v :: Part(f.name, v) in acm && Names(f, v)
  {
    forall p | p in acm && p.key == f.name
      ensures Part(f.name, p.value) in acm && (Names(f, p.value) <==> p.value == "" || p.value in f.values)
    {
      assert p == Part(f.name, p.value);
    }
  }

  /** The markings a user may see; in mode userroot only those of the user's own root objects. */
  function ValidForUser(snippets: seq<Field>, acms: map<AcmId, set<Part>>, among: set<AcmId>): set<AcmId> {
    set a | a in acms && a in among && UserMaySee(snippets, acms[a])
  }

  // ----- The rows of a user -----

  /** dao.UserAOCache.go:120-149: the union of the selects, which drops repeated rows. */
  function RowsOf(snippets: seq<Field>): set<Row> {
    (set f, v | f in snippets && v in f.values :: Row(f.treatment.Allowed?, f.name, Of(v)))
    + (set f | f in snippets && f.values == [] :: Row(f.treatment.Allowed?, f.name, Null))
  }

  // ----- From marking to users -----

  /** The condition that one key of a marking adds: users allowed one of its values, or users with a
      disallow row that none of them matches. */
  datatype Clause = Clause(allowKey: Name, allowValues: set<Name>, disallowKey: Name, disallowValues: set<Name>)

  function ValuesOf(kvs: seq<Part>, key: Name): set<Name> {
    set p | p in kvs && p.key == key :: p.value
  }

  function ClauseFor(kvs: seq<Part>, key: Name): Clause {
    Clause(key, ValuesOf(kvs, key), key, ValuesOf(kvs, key))
  }

  predicate ClauseAdmits(c: Clause, rows: set<Row>) {
    || (exists r :: r in rows && r.allowed && r.key == c.allowKey && r.value.Of? && r.value.name in c.allowValues)
    || (exists r :: r in rows && !r.allowed && r.key == c.disallowKey && (r.value.Null? || r.value.name !in c.disallowValues))
  }

  /** dao.UserAOCache.go:637-701: one clause for each part of the marking, in the order the parts come.
      Each select is built when its key comes first; for a key that comes again, whichever were built last
      are added once more. */
  method BuildUsersValidForACM(kvs: seq<Part>) returns (clauses: seq<Clause>)
    ensures forall c :: c in clauses ==> exists kv :: kv in kvs && c == ClauseFor(kvs, kv.key)
    ensures forall kv :: kv in kvs ==> ClauseFor(kvs, kv.key) in clauses
  {
    clauses := [];
    var keyWhitelist: seq<Name> := [];
    var keyBlacklist: seq<Name> := [];
    var clause := Clause("", {}, "", {});
    ghost var last := Part("", "");
    for i := 0 to |kvs|
      invariant keyWhitelist == keyBlacklist && (i == 0 ==> keyWhitelist == [])
      invariant forall k :: 0 <= k < i ==> kvs[k].key in keyWhitelist
      invariant forall key :: key in keyWhitelist ==> ClauseFor(kvs, key) in clauses
      invariant i > 0 ==> last in kvs && clause == ClauseFor(kvs, last.key)
      invariant forall c :: c in clauses ==> exists kv :: kv in kvs && c == ClauseFor(kvs, kv.key)
    {
      var kv := kvs[i];
      assert kv in kvs;
      ghost var isNew := kv.key !in keyWhitelist;
      if kv.key !in keyWhitelist {
        var values := SelectValues(kvs, kv.key);
        clause := clause.(allowKey := kv.key, allowValues := values);
        keyWhitelist := keyWhitelist + [kv.key];
      }
      if kv.key !in keyBlacklist {
        var values := SelectValues(kvs, kv.key);
        clause := clause.(disallowKey := kv.key, disallowValues := values);
        keyBlacklist := keyBlacklist + [kv.key];
      }
      last := if isNew then kv else last;
      clauses := clauses + [clause];
    }
  }

  method SelectValues(kvs: seq<Part>, key: Name) returns (values: set<Name>)
    ensures values == ValuesOf(kvs, key)
  {
    values := {};
    for i := 0 to |kvs|
      invariant values == ValuesOf(kvs[..i], key)
    {
      assert kvs[..i + 1] == kvs[..i] + [kvs[i]];
      if kvs[i].key == key {
        values := values + {kvs[i].value};
      }
    }
    assert kvs[..|kvs|] == kvs;
  }

  /** The users the query selects: with any row at all, and every clause met. */
  predicate Selected(rows: set<Row>, clauses: seq<Clause>) {
    rows != {} && forall c :: c in clauses ==> ClauseAdmits(c, rows)
  }

  /** Adding a clause again changes nothing: what the query asks is one condition for each key. */
  lemma ClausesAreOfKeys(kvs: seq<Part>, clauses: seq<Clause>, rows: set<Row>)
    requires forall c :: c in clauses ==> exists kv :: kv in kvs && c == ClauseFor(kvs, kv.key)
    requires forall kv :: kv in kvs ==> ClauseFor(kvs, kv.key) in clauses
    ensures Selected(rows, clauses) <==> rows != {} && forall kv :: kv in kvs ==> ClauseAdmits(ClauseFor(kvs, kv.key), rows)
  {
  }

  /** A marking lets a user see it, asked from the marking's side. */
  predicate AcmAdmits(acm: set<Part>, rows: set<Row>) {
    rows != {} && forall p :: p in acm ==> ClauseAdmits(ClauseOf(acm, p.key), rows)
  }

  function ClauseOf(acm: set<Part>, key: Name): Clause {
    var values := set p | p in acm && p.key == key :: p.value;
    Clause(key, values, key, values)
  }

  lemma SelectedIsAdmitted(acm: set<Part>, kvs: seq<Part>, clauses: seq<Clause>, rows: set<Row>)
    requires forall p :: p in kvs <==> p in acm
    requires forall c :: c in clauses ==> exists kv :: kv in kvs && c == ClauseFor(kvs, kv.key)
    requires forall kv :: kv in kvs ==> ClauseFor(kvs, kv.key) in clauses
    ensures Selected(rows, clauses) <==> AcmAdmits(acm, rows)
  {
    ClausesAreOfKeys(kvs, clauses, rows);
    forall key
      ensures ClauseFor(kvs, key) == ClauseOf(acm, key)
    {
      assert ValuesOf(kvs, key) == ClauseOf(acm, key).allowValues;
    }
  }

  // ----- The two directions -----

  predicate DistinctNames(snippets: seq<Field>) {
    forall i, j :: 0 <= i < j < |snippets| ==> snippets[i].name != snippets[j].name
  }

  /** The user's snippets have a field for every key of the marking. */
  predicate Covers(snippets: seq<Field>, acm: set<Part>) {
    forall p :: p in acm ==> exists f :: f in snippets && f.name == p.key
  }

  predicate NoBlankValues(acm: set<Part>) {
    forall p :: p in acm ==> p.value != ""
  }

  predicate OneValue(f: Field) {
    forall v, w :: v in f.values && w in f.values ==> v == w
  }

  /** No disallow field has more than one value. */
  predicate NarrowDisallows(snippets: seq<Field>) {
    forall f :: f in snippets && f.treatment.Disallow? ==> OneValue(f)
  }

  /** The condition of one key, asked of the one field that has its name. */
  predicate FieldAnswers(f: Field, acm: set<Part>) {
    match f.treatment
    case Allowed => exists p :: p in acm && p.key == f.name && p.value in f.values
    case Disallow => f.values == [] || exists v :: v in f.values && Part(f.name, v) !in acm
  }

  lemma NamesakeIsSame(snippets: seq<Field>, f: Field, g: Field)
    requires DistinctNames(snippets) && f in snippets && g in snippets && f.name == g.name
    ensures f == g
  {
  }

  lemma RowComesFrom(snippets: seq<Field>, r: Row) returns (f: Field)
    requires r in RowsOf(snippets)
    ensures f in snippets && f.name == r.key && f.treatment.Allowed? == r.allowed
    ensures if r.value.Null? then f.values == [] else r.value.name in f.values
  {
    if r in set f, v | f in snippets && v in f.values :: Row(f.treatment.Allowed?, f.name, Of(v)) {
      var f', v :| f' in snippets && v in f'.values && r == Row(f'.treatment.Allowed?, f'.name, Of(v));
      f := f';
    } else {
      var f' :| f' in snippets && f'.values == [] && r == Row(f'.treatment.Allowed?, f'.name, Null);
      f := f';
    }
  }

  lemma ClauseNeedsAnswer(snippets: seq<Field>, f: Field, acm: set<Part>)
    requires DistinctNames(snippets) && f in snippets && ClauseAdmits(ClauseOf(acm, f.name), RowsOf(snippets))
    ensures FieldAnswers(f, acm)
  {
    var rows, c := RowsOf(snippets), ClauseOf(acm, f.name);
    if r :| r in rows && r.allowed && r.key == c.allowKey && r.value.Of? && r.value.name in c.allowValues {
      var g := RowComesFrom(snippets, r);
      NamesakeIsSame(snippets, f, g);
      assert Part(f.name, r.value.name) in acm;
    } else {
      var r :| r in rows && !r.allowed && r.key == c.disallowKey && (r.value.Null? || r.value.name !in c.disallowValues);
      var g := RowComesFrom(snippets, r);
      NamesakeIsSame(snippets, f, g);
      if r.value.Of? {
        var v := r.value.name;
        assert v in f.values && Part(f.name, v) !in acm;
      }
    }
  }

  lemma AnswerMeetsClause(snippets: seq<Field>, f: Field, acm: set<Part>)
    requires f in snippets && FieldAnswers(f, acm)
    ensures ClauseAdmits(ClauseOf(acm, f.name), RowsOf(snippets))
  {
    var rows, c := RowsOf(snippets), ClauseOf(acm, f.name);
    match f.treatment
    case Allowed =>
      var p :| p in acm && p.key == f.name && p.value in f.values;
      assert Row(true, f.name, Of(p.value)) in rows;
    case Disallow =>
      if f.values == [] {
        assert Row(false, f.name, Null) in rows;
      } else {
        var v :| v in f.values && Part(f.name, v) !in acm;
        assert Row(false, f.name, Of(v)) in rows;
      }
  }

  lemma FieldGivesRow(snippets: seq<Field>, f: Field)
    requires f in snippets
    ensures RowsOf(snippets) != {}
  {
    if f.values == [] {
      assert Row(f.treatment.Allowed?, f.name, Null) in RowsOf(snippets);
    } else {
      var v := f.values[0];
      assert v in f.values;
      assert Row(f.treatment.Allowed?, f.name, Of(v)) in RowsOf(snippets);
    }
  }

  /** What the marking's side asks: a field for every key, and a fitting answer of it. */
  lemma AcmAdmitsExactly(snippets: seq<Field>, acm: set<Part>)
    requires DistinctNames(snippets) && snippets != []
    ensures AcmAdmits(acm, RowsOf(snippets)) <==>
            Covers(snippets, acm) && forall f, p :: f in snippets && p in acm && f.name == p.key ==> FieldAnswers(f, acm)
  {
    var rows := RowsOf(snippets);
    var head := snippets[0];
    FieldGivesRow(snippets, head);
    if AcmAdmits(acm, rows) {
      forall p | p in acm
        ensures exists f :: f in snippets && f.name == p.key
      {
        assert ClauseAdmits(ClauseOf(acm, p.key), rows);
        var r :| r in rows && r.key == p.key;
        var f := RowComesFrom(snippets, r);
      }
      forall f, p | f in snippets && p in acm && f.name == p.key
        ensures FieldAnswers(f, acm)
      {
        ClauseNeedsAnswer(snippets, f, acm);
      }
    }
    if Covers(snippets, acm) && forall f, p :: f in snippets && p in acm && f.name == p.key ==> FieldAnswers(f, acm) {
      forall p | p in acm
        ensures ClauseAdmits(ClauseOf(acm, p.key), rows)
      {
        var f :| f in snippets && f.name == p.key;
        AnswerMeetsClause(snippets, f, acm);
      }
    }
  }

  /** Whoever may see a marking by their own side is found from the marking's side, if their snippets
      cover its keys. */
  lemma ForwardImpliesReverse(snippets: seq<Field>, acm: set<Part>)
    requires DistinctNames(snippets) && snippets != [] && NoBlankValues(acm) && Covers(snippets, acm)
    requires UserMaySee(snippets, acm)
    ensures AcmAdmits(acm, RowsOf(snippets))
  {
    AcmAdmitsExactly(snippets, acm);
    forall f, p | f in snippets && p in acm && f.name == p.key
      ensures FieldAnswers(f, acm)
    {
      assert FieldAdmits(f, acm);
      if f.treatment.Disallow? && f.values != [] {
        var v := f.values[0];
        assert v in f.values;
        if Part(f.name, v) in acm {
          assert false;
        }
      }
    }
  }

  /** The converse holds when no disallow field has several values. */
  lemma ReverseImpliesForward(snippets: seq<Field>, acm: set<Part>)
    requires DistinctNames(snippets) && snippets != [] && NoBlankValues(acm) && NarrowDisallows(snippets)
    requires AcmAdmits(acm, RowsOf(snippets))
    ensures UserMaySee(snippets, acm)
  {
    AcmAdmitsExactly(snippets, acm);
    forall f | f in snippets
      ensures FieldAdmits(f, acm)
    {
      forall p | p in acm && p.key == f.name
        ensures FieldAdmits(f, acm)
      {
        assert FieldAnswers(f, acm);
        if f.treatment.Disallow? {
          OneAnswerForAll(f, acm);
        }
      }
    }
  }

  lemma OneAnswerForAll(f: Field, acm: set<Part>)
    requires f.treatment.Disallow? && OneValue(f) && FieldAnswers(f, acm) && NoBlankValues(acm)
    ensures FieldAdmits(f, acm)
  {
    if f.values != [] {
      var v :| v in f.values && Part(f.name, v) !in acm;
      forall w | w in f.values
        ensures Part(f.name, w) !in acm
      {
        assert w == v;
      }
      assert forall p :: p in acm && p.key == f.name ==> p == Part(f.name, p.value);
    }
  }

  /** The marking that has just one of a field's values. */
  lemma WideDisallowDiffers(snippets: seq<Field>, f: Field, v: Name, w: Name)
    requires DistinctNames(snippets) && f in snippets && f.treatment.Disallow?
    requires v in f.values && w in f.values && v != w
    ensures var acm := {Part(f.name, v)};
            Covers(snippets, acm) && AcmAdmits(acm, RowsOf(snippets)) && !UserMaySee(snippets, acm)
  {
    var acm := {Part(f.name, v)};
    assert Part(f.name, w) !in acm && Part(f.name, v) in acm;
    assert !FieldAdmits(f, acm);
    AcmAdmitsExactly(snippets, acm);
    forall g, p | g in snippets && p in acm && g.name == p.key
      ensures FieldAnswers(g, acm)
    {
      NamesakeIsSame(snippets, f, g);
    }
  }

  /** Both directions agree on a marking. */
  ghost predicate Agree(snippets: seq<Field>, acm: set<Part>) {
    UserMaySee(snippets, acm) <==> AcmAdmits(acm, RowsOf(snippets))
  }

  /** The two directions agree on every marking whose keys a user's snippets cover, exactly when no
      disallow field of the user has several values. (Without values of the empty string.) */
  lemma DirectionsAgreeExactly(snippets: seq<Field>)
    requires DistinctNames(snippets) && snippets != []
    requires forall f :: f in snippets ==> "" !in f.values
    ensures (forall acm :: NoBlankValues(acm) && Covers(snippets, acm) ==> Agree(snippets, acm)) <==> NarrowDisallows(snippets)
  {
    if NarrowDisallows(snippets) {
      forall acm | NoBlankValues(acm) && Covers(snippets, acm)
        ensures Agree(snippets, acm)
      {
        if UserMaySee(snippets, acm) {
          ForwardImpliesReverse(snippets, acm);
        }
        if AcmAdmits(acm, RowsOf(snippets)) {
          ReverseImpliesForward(snippets, acm);
        }
      }
    } else {
      var f :| f in snippets && f.treatment.Disallow? && !OneValue(f);
      var v, w :| v in f.values && w in f.values && v != w;
      WideDisallowDiffers(snippets, f, v, w);
      assert NoBlankValues({Part(f.name, v)});
      assert !Agree(snippets, {Part(f.name, v)});
    }
  }

  // ----- The links -----

  /** The tables a rebuild reads and writes. */
  class Index {
    var acms: map<AcmId, set<Part>>
    var links: set<(UserId, AcmId)>

    constructor ()
      ensures acms == map[] && links == {}
    {
      acms, links := map[], {};
    }

    /** dao.UserAOCache.go:545-565. */
    method DeleteInvalidUserACMs(user: UserId, acmids: set<AcmId>)
      modifies this`links
      ensures links == set l | l in old(links) && (l.0 == user ==> l.1 in acmids)
    {
      if acmids != {} {
        links := set l | l in links && (l.0 == user ==> l.1 in acmids);
      } else {
        links := set l | l in links && l.0 != user;
      }
    }

    /** dao.UserAOCache.go:567-586. */
    method InsertUserACMList(user: UserId, acmids: set<AcmId>)
      modifies this`links
      ensures links == old(links) + (set a | a in acmids && a in acms :: (user, a))
    {
      if acmids == {} {
        return;
      }
      links := links + (set a | a in acms && (user, a) !in links && a in acmids :: (user, a));
    }

    /** dao.UserAOCache.go:328-365: whatever links the user had, afterwards they are those of the markings
        the user may see; nobody else's change. */
    method RebuildUserACMCache(user: UserId, snippets: seq<Field>, among: set<AcmId>)
      modifies this`links
      ensures forall a :: (user, a) in links <==> a in acms && a in among && UserMaySee(snippets, acms[a])
      ensures forall u, a :: u != user ==> ((u, a) in links <==> (u, a) in old(links))
    {
      var acmids := ValidForUser(snippets, acms, among);
      DeleteInvalidUserACMs(user, acmids);
      InsertUserACMList(user, acmids);
    }

    /** dao.UserAOCache.go:370-416: a new marking is linked to the users its own query selects. */
    method AssociateUsersToNewACM(acm: AcmId, kvs: seq<Part>, users: map<UserId, seq<Field>>)
      requires acm in acms && forall p :: p in kvs <==> p in acms[acm]
      modifies this`links
      ensures forall u, a :: (u, a) in links <==>
                (u, a) in old(links) || (a == acm && u in users && AcmAdmits(acms[acm], RowsOf(users[u])))
    {
      var eligible := GetUsersValidForACM(acms[acm], kvs, users);
      LinkAll(acm, eligible);
    }

    method GetUsersValidForACM(parts: set<Part>, kvs: seq<Part>, users: map<UserId, seq<Field>>) returns (eligible: set<UserId>)
      requires forall p :: p in kvs <==> p in parts
      ensures forall u :: u in eligible <==> u in users && AcmAdmits(parts, RowsOf(users[u]))
    {
      var clauses := BuildUsersValidForACM(kvs);
      forall u | u in users
        ensures Selected(RowsOf(users[u]), clauses) <==> AcmAdmits(parts, RowsOf(users[u]))
      {
        SelectedIsAdmitted(parts, kvs, clauses, RowsOf(users[u]));
      }
      eligible := set u | u in users && Selected(RowsOf(users[u]), clauses);
    }

    method LinkAll(acm: AcmId, eligible: set<UserId>)
      requires acm in acms
      modifies this`links
      ensures forall u, a :: (u, a) in links <==> (u, a) in old(links) || (a == acm && u in eligible)
    {
      var left := eligible;
      while left != {}
        invariant left <= eligible
        invariant forall u, a :: (u, a) in links <==> (u, a) in old(links) || (a == acm && u in eligible - left)
        decreases |left|
      {
        SomeMember(left);
        var u :| u in left;
        left := left - {u};
        InsertUserACMList(u, {acm});
      }
    }
  }

  lemma SomeMember(s: set<UserId>)
    ensures s == {} || exists u :: u in s
  {
    if forall u :: u !in s {
      assert s == {};
    }
  }

  /** Every user's links are those of the markings the user may see. */
  ghost predicate LinksRight(acms: map<AcmId, set<Part>>, links: set<(UserId, AcmId)>, users: map<UserId, seq<Field>>) {
    forall u, a :: u in users ==> ((u, a) in links <==> a in acms && UserMaySee(users[u], acms[a]))
  }

  /** What a rebuild of one user over all markings does to the links. */
  ghost predicate Rebuilt(acms: map<AcmId, set<Part>>, links: set<(UserId, AcmId)>, links': set<(UserId, AcmId)>,
                          user: UserId, snippets: seq<Field>) {
    && (forall a :: (user, a) in links' <==> a in acms && UserMaySee(snippets, acms[a]))
    && (forall u, a :: u != user ==> ((u, a) in links' <==> (u, a) in links))
  }

  /** Whatever links there were, once every user has been rebuilt, in whatever order and however often, all
      links are right. */
  lemma {:induction false} RebuildsMakeLinksRight(acms: map<AcmId, set<Part>>, users: map<UserId, seq<Field>>,
                                                  order: seq<UserId>, tables: seq<set<(UserId, AcmId)>>)
    requires |tables| == |order| + 1
    requires forall i :: 0 <= i < |order| ==> order[i] in users
    requires forall i :: 0 <= i < |order| ==> Rebuilt(acms, tables[i], tables[i + 1], order[i], users[order[i]])
    ensures forall u, a :: u in order ==> ((u, a) in tables[|order|] <==> a in acms && UserMaySee(users[u], acms[a]))
    ensures (forall u :: u in users ==> u in order) ==> LinksRight(acms, tables[|order|], users)
  {
    if order != [] {
      var n := |order| - 1;
      RebuildsMakeLinksRight(acms, users, order[..n], tables[..n + 1]);
      assert Rebuilt(acms, tables[n], tables[n + 1], order[n], users[order[n]]);
      forall u, a | u in order
        ensures (u, a) in tables[n + 1] <==> a in acms && UserMaySee(users[u], acms[a])
      {
        if u != order[n] {
          assert order == order[..n] + [order[n]];
          assert u in order[..n];
        }
      }
    }
  }

  /** A disallow field that has one value on the marking and another one off it. */
  predicate Splits(f: Field, acm: set<Part>) {
    && f.treatment.Disallow?
    && (exists v :: v in f.values && Part(f.name, v) in acm)
    && (exists v :: v in f.values && Part(f.name, v) !in acm)
  }

  /** What the marking's side gets wrong about a user: it overlooks one who may see the marking but has no
      field for some key of it, and takes one whose every field it names answers, though a disallow field
      splits on it. */
  ghost predicate Misjudged(snippets: seq<Field>, acm: set<Part>) {
    if snippets == [] || !Covers(snippets, acm) then UserMaySee(snippets, acm)
    else
      && (forall f, p :: f in snippets && p in acm && f.name == p.key ==> FieldAnswers(f, acm))
      && (exists f :: f in snippets && Splits(f, acm))
  }

  lemma NoRowsNoUser(acm: set<Part>)
    ensures !AcmAdmits(acm, RowsOf([]))
  {
  }

  /** A field that answers but does not admit is a disallow field that splits. */
  lemma AnswersButKeepsOut(f: Field, acm: set<Part>)
    requires NoBlankValues(acm) && !FieldAdmits(f, acm) && FieldAnswers(f, acm)
    ensures Splits(f, acm)
  {
    if f.treatment.Disallow? {
      var p :| p in acm && p.key == f.name && (p.value == "" || p.value in f.values);
      assert Part(f.name, p.value) in acm;
    }
  }

  lemma SplitKeepsOut(f: Field, acm: set<Part>)
    requires Splits(f, acm)
    ensures !FieldAdmits(f, acm)
  {
    var v :| v in f.values && Part(f.name, v) in acm;
    assert Part(f.name, v).value in f.values;
  }

  lemma AgreeUnlessMisjudged(snippets: seq<Field>, acm: set<Part>)
    requires DistinctNames(snippets) && NoBlankValues(acm)
    ensures Agree(snippets, acm) <==> !Misjudged(snippets, acm)
  {
    if snippets == [] {
      NoRowsNoUser(acm);
    } else {
      AcmAdmitsExactly(snippets, acm);
      if AcmAdmits(acm, RowsOf(snippets)) {
        if f :| f in snippets && Splits(f, acm) {
          SplitKeepsOut(f, acm);
        } else {
          forall f | f in snippets
            ensures FieldAdmits(f, acm)
          {
            if !FieldAdmits(f, acm) {
              AnswersButKeepsOut(f, acm);
            }
          }
        }
      } else if UserMaySee(snippets, acm) && Covers(snippets, acm) {
        ForwardImpliesReverse(snippets, acm);
      }
    }
  }

  /** When all links were right, linking a new marking by its own query leaves them right exactly when it
      misjudges no user. */
  lemma NewMarkingKeepsLinksRight(acms: map<AcmId, set<Part>>, links: set<(UserId, AcmId)>, users: map<UserId, seq<Field>>,
                                  acm: AcmId, parts: set<Part>, links': set<(UserId, AcmId)>)
    requires LinksRight(acms, links, users) && acm !in acms && NoBlankValues(parts)
    requires forall u :: u in users ==> DistinctNames(users[u])
    requires forall u, a :: (u, a) in links' <==>
               (u, a) in links || (a == acm && u in users && AcmAdmits(parts, RowsOf(users[u])))
    ensures LinksRight(acms[acm := parts], links', users) <==> forall u :: u in users ==> !Misjudged(users[u], parts)
  {
    var acms' := acms[acm := parts];
    forall u | u in users
      ensures (u, acm) in links' <==> AcmAdmits(parts, RowsOf(users[u]))
      ensures Agree(users[u], parts) <==> !Misjudged(users[u], parts)
    {
      assert (u, acm) !in links;
      AgreeUnlessMisjudged(users[u], parts);
    }
    if LinksRight(acms', links', users) {
      forall u | u in users
        ensures Agree(users[u], parts)
      {
        assert (u, acm) in links' <==> acm in acms' && UserMaySee(users[u], acms'[acm]);
      }
    }
  }
}
