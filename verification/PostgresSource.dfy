/** When a dump rebuilds the very database it was taken from. The catalog leaves out every
    index that a constraint stands on (internal/service/postgres_dump.go:264-288), and a
    foreign key may stand on an index that no constraint brings back; it has no position of
    a sequence that has not been called (internal/service/postgres_dump.go:323-327). */
module PostgresSource {
  import opened Text
  import opened CopyFormat
  import opened PostgresDump
  import opened PostgresRoundTrip
  import opened PostgresDatabase

  // ------------------------------------------------------------- what a server keeps

  /** An index is known by its oid. */
  ghost predicate OidsOk(src: Source) {
    forall t, u, x, y :: t in src.tables && u in src.tables && x in t.indexes && y in u.indexes && x.oid == y.oid ==> t == u && x == y
  }

  ghost predicate HasUniqueIndex(t: PgTable, oid: nat, cols: seq<nat>) {
    exists x :: x in t.indexes && x.oid == oid && x.index.unique.Some? && SameColumns(x.index.unique.value, cols)
  }

  ghost predicate HasOtherIndex(t: PgTable, oid: nat) {
    exists x :: x in t.indexes && x.oid == oid && x.index.unique == None
  }

  /** A key stands on an index of its own table, which is unique at once unless the key is
      deferrable; a foreign key on a unique index of the table it refers to, which need not
      have been made for a constraint. */
  ghost predicate StandsRight(src: Source, t: PgTable, c: PgConstraint) {
    match c.constraint.rule
    case ForeignKey(_, refTable, refCols) =>
      c.conindid.Some? && exists r :: r in src.tables && r.name == refTable && HasUniqueIndex(r, c.conindid.value, refCols)
    case Opaque(_) => c.conindid.Some? ==> HasOtherIndex(t, c.conindid.value)
    case _ =>
      c.conindid.Some?
      && if c.constraint.deferrable then HasOtherIndex(t, c.conindid.value)
         else HasUniqueIndex(t, c.conindid.value, c.constraint.rule.cols)
  }

  /** What every live database keeps of itself. */
  ghost predicate Live(m: Meaning, src: Source) {
    && Consistent(m, ReadCatalog(src))
    && OidsOk(src)
    && forall t, c :: t in src.tables && c in t.constraints ==> StandsRight(src, t, c)
  }

  // ------------------------------------------------------------------ what is rebuilt

  ghost predicate NamesOk(cat: Catalog) {
    forall t :: t in cat.tables ==> Named(t.constraints)
  }

  /** The sequences of `db` are those of the source, each at its position. */
  ghost predicate SequencesAre(db: Database, src: Source) {
    && db.sequences.Keys == (set s | s in src.sequences :: s.name)
    && (forall s :: s in src.sequences ==> db.sequences[s.name] == s)
  }

  /** A listing of the indexes that are not made for a constraint, in order; `at` holds their
      places. */
  ghost predicate Lists(indexes: seq<Index>, all: seq<PgIndex>, own: set<nat>, at: seq<nat>) {
    && |at| == |indexes|
    && (forall j, k :: 0 <= j < k < |at| ==> at[j] < at[k])
    && (forall k :: 0 <= k < |at| ==> at[k] < |all| && all[at[k]].oid !in own && all[at[k]].index == indexes[k])
    && (forall i: nat :: i < |all| && all[i].oid !in own ==> i in at)
  }

  /** A table as it is at the source: columns, rows, constraints, and the indexes that do not
      come with a constraint. */
  ghost predicate IsTable(ts: TableState, t: PgTable, own: set<nat>) {
    && ts.columns == t.columns && ts.rows == t.rows
    && (forall n :: n in ts.constraints <==> exists c :: c in t.constraints && c.constraint.name == n)
    && (forall c :: c in t.constraints ==> c.constraint.name in ts.constraints && ts.constraints[c.constraint.name] == c.constraint)
    && exists at :: Lists(ts.indexes, t.indexes, own, at)
  }

  ghost predicate TablesAre(db: Database, src: Source) {
    && db.tables.Keys == (set t | t in src.tables :: t.name)
    && (forall t :: t in src.tables ==> IsTable(db.tables[t.name], t, OwnedIndexes(src)))
  }

  /** `db` is exactly the source: sequences with their positions, tables, rows, constraints and
      indexes. */
  ghost predicate IsSource(db: Database, src: Source) {
    SequencesAre(db, src) && TablesAre(db, src)
  }

  /** A sequence that has a last value to read, or none that is lost. */
  predicate PositionRead(src: Source, s: PgSequence) {
    ReadSequence(s, src.hidden).lastValue == None ==> s.position == Position(s.startValue, false)
  }

  /** Every sequence without a last value to read, because it has not been called or the role
      may not read it, stands at its start value and has not been called. */
  ghost predicate PositionsRead(src: Source) {
    forall s :: s in src.sequences ==> PositionRead(src, s)
  }

  /** Every index that a foreign key stands on, from this schema or from another, was made
      for a key. */
  ghost predicate BoundToKeys(src: Source) {
    forall t, x :: t in src.tables && x in t.indexes && x.oid in BoundIndexes(src) ==> x.oid in OwnedIndexes(src)
  }

  lemma {:induction false} WithoutMore(indexes: seq<PgIndex>, fewer: set<nat>, more: set<nat>)
    requires fewer <= more
    ensures |Without(indexes, more)| <= |Without(indexes, fewer)|
    ensures Without(indexes, more) == Without(indexes, fewer)
       <==> forall x :: x in indexes && x.oid in more ==> x.oid in fewer
  {
    if indexes == [] {
    } else {
      var x, rest := indexes[0], indexes[1..];
      assert indexes == [x] + rest;
      WithoutMore(rest, fewer, more);
      assert x in indexes && forall y :: y in indexes <==> y == x || y in rest;
      if x.oid !in more {
        assert Without(indexes, more) == [x.index] + Without(rest, more);
        assert Without(indexes, fewer) == [x.index] + Without(rest, fewer);
        assert ([x.index] + Without(rest, more))[1..] == Without(rest, more);
        assert ([x.index] + Without(rest, fewer))[1..] == Without(rest, fewer);
      } else if x.oid in fewer {
        assert Without(indexes, more) == Without(rest, more);
        assert Without(indexes, fewer) == Without(rest, fewer);
      } else {
        assert |Without(indexes, more)| < |Without(indexes, fewer)|;
      }
    }
  }

  lemma TablesOf(src: Source, oids: set<nat>)
    ensures forall t :: t in src.tables ==> TableWithout(t, oids) in CatalogWithout(src, oids).tables
    ensures forall u :: u in CatalogWithout(src, oids).tables ==> exists t :: t in src.tables && u == TableWithout(t, oids)
    ensures TableNames(CatalogWithout(src, oids).tables) == set t | t in src.tables :: t.name
  {
    var ts := CatalogWithout(src, oids).tables;
    forall t | t in src.tables ensures TableWithout(t, oids) in ts {
      var i :| 0 <= i < |src.tables| && src.tables[i] == t;
      assert ts[i] == TableWithout(t, oids);
    }
    forall u | u in ts ensures exists t :: t in src.tables && u == TableWithout(t, oids) {
      var i :| 0 <= i < |ts| && ts[i] == u;
      assert src.tables[i] in src.tables;
    }
  }

  lemma NamesAgree(src: Source, a: set<nat>, b: set<nat>)
    requires NamesOk(CatalogWithout(src, a))
    ensures NamesOk(CatalogWithout(src, b))
  {
    TablesOf(src, a);
    TablesOf(src, b);
    forall u | u in CatalogWithout(src, b).tables ensures Named(u.constraints) {
      var t :| t in src.tables && u == TableWithout(t, b);
      assert TableWithout(t, a) in CatalogWithout(src, a).tables;
    }
  }

  lemma SameTable(db: Database, src: Source, t: PgTable, fewer: set<nat>, more: set<nat>)
    requires t in src.tables && NamesOk(CatalogWithout(src, more)) && TablesImage(db, CatalogWithout(src, more).tables)
    ensures Named(ConstraintsOf(t)) && t.name in db.tables
    ensures db.tables[t.name] == FinalTable(TableWithout(t, fewer)) <==> Without(t.indexes, more) == Without(t.indexes, fewer)
  {
    TablesOf(src, more);
    var u := TableWithout(t, more);
    assert u in CatalogWithout(src, more).tables;
    assert u.name in TableNames(CatalogWithout(src, more).tables);
    assert db.tables[t.name] == FinalTable(u);
  }

  ghost predicate TablesAreWithout(db: Database, src: Source, oids: set<nat>)
    requires forall t :: t in src.tables ==> Named(ConstraintsOf(t))
  {
    forall t :: t in src.tables ==> t.name in db.tables && db.tables[t.name] == FinalTable(TableWithout(t, oids))
  }

  lemma NamedConstraints(src: Source, oids: set<nat>)
    requires NamesOk(CatalogWithout(src, oids))
    ensures forall t :: t in src.tables ==> Named(ConstraintsOf(t))
  {
    TablesOf(src, oids);
    forall t | t in src.tables ensures Named(ConstraintsOf(t)) {
      assert TableWithout(t, oids) in CatalogWithout(src, oids).tables;
    }
  }

  /** The tables of an image, one by one. */
  lemma ImageTables(db: Database, src: Source, oids: set<nat>)
    requires NamesOk(CatalogWithout(src, oids)) && forall t :: t in src.tables ==> Named(ConstraintsOf(t))
    ensures TablesImage(db, CatalogWithout(src, oids).tables)
       <==> db.tables.Keys == (set t | t in src.tables :: t.name) && TablesAreWithout(db, src, oids)
  {
    var ts := CatalogWithout(src, oids).tables;
    TablesOf(src, oids);
    assert forall t :: t in src.tables ==> TableWithout(t, oids).name == t.name;
    hide FinalTable, TableNames, TableWithout;
    if db.tables.Keys == TableNames(ts) {
      if forall u :: u in ts ==> db.tables[u.name] == FinalTable(u) {
        forall t | t in src.tables ensures t.name in db.tables && db.tables[t.name] == FinalTable(TableWithout(t, oids)) {
          assert TableWithout(t, oids) in ts;
        }
      }
      if TablesAreWithout(db, src, oids) {
        forall u | u in ts ensures db.tables[u.name] == FinalTable(u) {
          var t :| t in src.tables && u == TableWithout(t, oids);
        }
      }
    }
  }

  /** Image of what was read, image of the whole: the same just when no index was left out. */
  lemma ImageOfWhole(db: Database, src: Source, fewer: set<nat>, more: set<nat>)
    requires fewer <= more && NamesOk(CatalogWithout(src, more)) && NamesOk(CatalogWithout(src, fewer))
    requires TablesImage(db, CatalogWithout(src, more).tables)
    ensures TablesImage(db, CatalogWithout(src, fewer).tables)
       <==> forall t :: t in src.tables ==> Without(t.indexes, more) == Without(t.indexes, fewer)
  {
    NamedConstraints(src, more);
    ImageTables(db, src, fewer);
    ImageTables(db, src, more);
    hide TablesImage, FinalTable, CatalogWithout, NamesOk;
    forall t | t in src.tables
      ensures db.tables[t.name] == FinalTable(TableWithout(t, fewer)) <==> Without(t.indexes, more) == Without(t.indexes, fewer)
    {
      SameTable(db, src, t, fewer, more);
    }
  }

  lemma NothingLeftOut(src: Source)
    ensures (forall t :: t in src.tables ==> Without(t.indexes, OwnedIndexes(src) + BoundIndexes(src)) == Without(t.indexes, OwnedIndexes(src)))
       <==> BoundToKeys(src)
  {
    hide OwnedIndexes, BoundIndexes;
    forall t | t in src.tables
      ensures Without(t.indexes, OwnedIndexes(src) + BoundIndexes(src)) == Without(t.indexes, OwnedIndexes(src))
         <==> forall x :: x in t.indexes && x.oid in BoundIndexes(src) ==> x.oid in OwnedIndexes(src)
    {
      WithoutMore(t.indexes, OwnedIndexes(src), OwnedIndexes(src) + BoundIndexes(src));
    }
  }

  lemma SequencesOf(src: Source)
    ensures forall s :: s in src.sequences ==> ReadSequence(s, src.hidden) in ReadSequences(src)
    ensures forall r :: r in ReadSequences(src) ==> exists s :: s in src.sequences && r == ReadSequence(s, src.hidden)
    ensures (set r | r in ReadSequences(src) :: r.name) == set s | s in src.sequences :: s.name
  {
    forall s | s in src.sequences ensures ReadSequence(s, src.hidden) in ReadSequences(src) {
      var i :| 0 <= i < |src.sequences| && src.sequences[i] == s;
      assert ReadSequences(src)[i] == ReadSequence(s, src.hidden);
    }
    forall r | r in ReadSequences(src) ensures exists s :: s in src.sequences && r == ReadSequence(s, src.hidden) {
      var i :| 0 <= i < |ReadSequences(src)| && ReadSequences(src)[i] == r;
      assert src.sequences[i] in src.sequences;
    }
  }

  /** What the rows of pg_sequences describe is the sequences just when no position is lost. */
  lemma ImageSequences(db: Database, src: Source)
    requires SequencesImage(db, ReadSequences(src))
    ensures SequencesAre(db, src) <==> PositionsRead(src)
  {
    SequencesOf(src);
    forall s | s in src.sequences ensures db.sequences[s.name] == s <==> PositionRead(src, s) {
      assert db.sequences[s.name] == Positioned(ReadSequence(s, src.hidden));
    }
    hide PositionRead, ReadSequence;
  }

  lemma {:induction false} WithoutSnoc(front: seq<PgIndex>, last: PgIndex, own: set<nat>)
    ensures Without(front + [last], own) == Without(front, own) + if last.oid in own then [] else [last.index]
  {
    if front == [] {
      assert ([last])[1..] == [];
    } else {
      var kept: seq<Index> := if front[0].oid in own then [] else [front[0].index];
      assert (front + [last])[0] == front[0] && (front + [last])[1..] == front[1..] + [last];
      WithoutSnoc(front[1..], last, own);
      Regroup(kept, Without(front[1..], own), if last.oid in own then [] else [last.index]);
    }
  }

  /** One index more, kept or not. */
  lemma ListsSnoc(indexes: seq<Index>, front: seq<PgIndex>, last: PgIndex, own: set<nat>, at: seq<nat>)
    requires Lists(indexes, front, own, at)
    ensures last.oid in own ==> Lists(indexes, front + [last], own, at)
    ensures last.oid !in own ==> Lists(indexes + [last.index], front + [last], own, at + [|front|])
  {
    var all := front + [last];
    assert forall i :: 0 <= i < |front| ==> all[i] == front[i];
    if last.oid !in own {
      forall i: nat | i < |all| && all[i].oid !in own ensures i in at + [|front|] {
        if i < |front| {
          assert i in at;
        }
      }
    }
  }

  lemma ListsFront(indexes: seq<Index>, front: seq<PgIndex>, last: PgIndex, own: set<nat>, at: seq<nat>)
    requires Lists(indexes, front + [last], own, at)
    ensures last.oid in own ==> Lists(indexes, front, own, at)
    ensures last.oid !in own ==> indexes != [] && indexes[|indexes| - 1] == last.index && Lists(indexes[..|indexes| - 1], front, own, at[..|at| - 1])
  {
    var all, n := front + [last], |front|;
    assert forall i :: 0 <= i < n ==> all[i] == front[i];
    assert all[n] == last;
    if last.oid in own {
      assert forall k :: 0 <= k < |at| ==> at[k] != n;
    } else {
      var k :| 0 <= k < |at| && at[k] == n;
      assert at[k] <= at[|at| - 1];
      forall i: nat | i < n && front[i].oid !in own ensures i in at[..|at| - 1] {
        assert all[i] == front[i] && i in at;
      }
    }
  }

  lemma {:induction false} ListsWithout(all: seq<PgIndex>, own: set<nat>) returns (at: seq<nat>)
    ensures Lists(Without(all, own), all, own, at)
  {
    if all == [] {
      at := [];
    } else {
      hide Lists, Without;
      var front, last := all[..|all| - 1], all[|all| - 1];
      assert all == front + [last];
      WithoutSnoc(front, last, own);
      at := ListsWithout(front, own);
      ListsSnoc(Without(front, own), front, last, own, at);
      if last.oid in own {
        assert Without(front, own) + [] == Without(front, own);
      } else {
        at := at + [|front|];
      }
    }
  }

  /** It is the only listing. */
  lemma {:induction false} ListsOnly(indexes: seq<Index>, all: seq<PgIndex>, own: set<nat>, at: seq<nat>)
    requires Lists(indexes, all, own, at)
    ensures indexes == Without(all, own)
    decreases |all|
  {
    if all == [] {
      assert indexes == [];
    } else {
      hide Lists, Without;
      var front, last := all[..|all| - 1], all[|all| - 1];
      assert all == front + [last];
      WithoutSnoc(front, last, own);
      ListsFront(indexes, front, last, own, at);
      if last.oid in own {
        ListsOnly(indexes, front, own, at);
        assert Without(front, own) + [] == Without(front, own);
      } else {
        ListsOnly(indexes[..|indexes| - 1], front, own, at[..|at| - 1]);
        assert indexes == indexes[..|indexes| - 1] + [last.index];
      }
    }
  }

  /** The constraints of the final state of a table. */
  lemma FinalConstraints(t: PgTable, own: set<nat>)
    requires Named(ConstraintsOf(t))
    ensures var cs := FinalTable(TableWithout(t, own)).constraints;
      && (forall n :: n in cs <==> exists c :: c in t.constraints && c.constraint.name == n)
      && (forall c :: c in t.constraints ==> c.constraint.name in cs && cs[c.constraint.name] == c.constraint)
  {
    var cs, final := ConstraintsOf(t), FinalTable(TableWithout(t, own)).constraints;
    forall n ensures n in final <==> exists c :: c in t.constraints && c.constraint.name == n {
      if n in final {
        var k :| 0 <= k < |cs| && cs[k].name == n;
        assert t.constraints[k] in t.constraints;
      }
      if c :| c in t.constraints && c.constraint.name == n {
        var k :| 0 <= k < |t.constraints| && t.constraints[k] == c;
        assert cs[k].name == n;
      }
    }
    forall c | c in t.constraints ensures c.constraint.name in final && final[c.constraint.name] == c.constraint {
      var k :| 0 <= k < |t.constraints| && t.constraints[k] == c;
      assert cs[k] == c.constraint;
    }
  }

  /** The state of a table that a catalog without the constraints' own indexes leads to is the
      table. */
  lemma FinalIsTable(ts: TableState, t: PgTable, own: set<nat>)
    requires Named(ConstraintsOf(t))
    ensures IsTable(ts, t, own) <==> ts == FinalTable(TableWithout(t, own))
  {
    var final := FinalTable(TableWithout(t, own));
    assert final.columns == t.columns && final.rows == t.rows && final.indexes == Without(t.indexes, own);
    FinalConstraints(t, own);
    var at := ListsWithout(t.indexes, own);
    hide FinalTable, TableWithout, Without, Lists, Named, ConstraintsOf;
    if IsTable(ts, t, own) {
      var other :| Lists(ts.indexes, t.indexes, own, other);
      ListsOnly(ts.indexes, t.indexes, own, other);
      forall n | n in final.constraints ensures n in ts.constraints && ts.constraints[n] == final.constraints[n] {
        var c :| c in t.constraints && c.constraint.name == n;
      }
      assert ts.constraints == final.constraints;
    }
  }

  /** Tables are those of the source just when they are the image of what it has without the
      constraints' own indexes. */
  lemma TablesAreImage(db: Database, src: Source)
    requires NamesOk(CatalogWithout(src, OwnedIndexes(src)))
    ensures TablesAre(db, src) <==> TablesImage(db, CatalogWithout(src, OwnedIndexes(src)).tables)
  {
    var own := OwnedIndexes(src);
    NamedConstraints(src, own);
    ImageTables(db, src, own);
    hide TablesImage, FinalTable, CatalogWithout, NamesOk, OwnedIndexes, IsTable, TableWithout;
    forall t | t in src.tables && t.name in db.tables
      ensures IsTable(db.tables[t.name], t, own) <==> db.tables[t.name] == FinalTable(TableWithout(t, own))
    {
      FinalIsTable(db.tables[t.name], t, own);
    }
  }

  /** A database that is what was read of a source is the source itself if and only if every
      foreign key stands on a key and no position is lost. */
  lemma ImageIsSource(db: Database, src: Source)
    requires NamesOk(ReadCatalog(src)) && IsImage(db, ReadCatalog(src))
    ensures IsSource(db, src) <==> BoundToKeys(src) && PositionsRead(src)
  {
    hide OwnedIndexes, BoundIndexes, SequencesImage, TablesImage, NamesOk, BoundToKeys, SequencesAre, PositionsRead, TablesAre;
    NamesAgree(src, OwnedIndexes(src) + BoundIndexes(src), OwnedIndexes(src));
    ImageOfWhole(db, src, OwnedIndexes(src), OwnedIndexes(src) + BoundIndexes(src));
    TablesAreImage(db, src);
    NothingLeftOut(src);
    ImageSequences(db, src);
  }

  /** A key that is checked at once. */
  predicate IsPromptKey(c: Constraint) {
    IsKey(c.rule) && !c.deferrable
  }

  /** An index made for a constraint: unique on the columns of a prompt key, else not. */
  lemma OwnIndex(src: Source, t: PgTable, c: PgConstraint, oid: nat) returns (y: PgIndex)
    requires StandsRight(src, t, c) && !c.constraint.rule.ForeignKey? && c.conindid == Some(oid)
    ensures y in t.indexes && y.oid == oid && (y.index.unique.Some? <==> IsPromptKey(c.constraint))
    ensures IsPromptKey(c.constraint) ==> SameColumns(y.index.unique.value, c.constraint.rule.cols)
  {
    hide SameColumns;
    var rule := c.constraint.rule;
    if IsPromptKey(c.constraint) {
      y :| y in t.indexes && y.oid == oid && y.index.unique.Some? && SameColumns(y.index.unique.value, rule.cols);
    } else {
      y :| y in t.indexes && y.oid == oid && y.index.unique == None;
    }
  }

  lemma SameColumnsVia(a: seq<nat>, b: seq<nat>, c: seq<nat>)
    requires SameColumns(b, a) && SameColumns(b, c)
    ensures SameColumns(a, c)
  {}

  /** The owner of the index that a foreign key stands on is a key of the referenced table. */
  lemma OwnerIsKey(m: Meaning, src: Source, r: PgTable, oid: nat, cols: seq<nat>)
    requires Live(m, src) && r in src.tables && HasUniqueIndex(r, oid, cols) && oid in OwnedIndexes(src)
    ensures exists c :: c in r.constraints && KeyOn(c.constraint, cols)
  {
    var x :| x in r.indexes && x.oid == oid && x.index.unique.Some? && SameColumns(x.index.unique.value, cols);
    var t, c :| t in src.tables && c in t.constraints && !c.constraint.rule.ForeignKey? && c.conindid == Some(oid);
    hide Consistent, OwnedIndexes, HasUniqueIndex, StandsRight, SameColumns;
    var y := OwnIndex(src, t, c, oid);
    assert t == r && x == y;
    SameColumnsVia(c.constraint.rule.cols, x.index.unique.value, cols);
  }

  lemma KeyIsRead(src: Source, r: PgTable, cols: seq<nat>)
    requires r in src.tables && exists d :: d in r.constraints && KeyOn(d.constraint, cols)
    ensures exists u :: u in ReadCatalog(src).tables && u.name == r.name && Backed(u, cols)
  {
    hide KeyOn, OwnedIndexes, BoundIndexes;
    var d :| d in r.constraints && KeyOn(d.constraint, cols);
    var i :| 0 <= i < |r.constraints| && r.constraints[i] == d;
    var oids := OwnedIndexes(src) + BoundIndexes(src);
    assert ConstraintsOf(r)[i] == d.constraint;
    TablesOf(src, oids);
    assert Backed(TableWithout(r, oids), cols);
  }

  lemma BackedBy(m: Meaning, src: Source, t: PgTable, c: PgConstraint)
    requires Live(m, src) && BoundToKeys(src) && t in src.tables && c in t.constraints && c.constraint.rule.ForeignKey?
    ensures ForeignKeyBacked(ReadCatalog(src), c.constraint)
  {
    hide Consistent, ReadCatalog, OidsOk;
    assert StandsRight(src, t, c);
    var rule, oid := c.constraint.rule, c.conindid.value;
    var r :| r in src.tables && r.name == rule.refTable && HasUniqueIndex(r, oid, rule.refCols);
    assert oid in BoundIndexes(src);
    hide BoundIndexes, OwnedIndexes, StandsRight;
    OwnerIsKey(m, src, r, oid, rule.refCols);
    KeyIsRead(src, r, rule.refCols);
  }

  lemma BoundIsBacked(m: Meaning, src: Source)
    requires Live(m, src) && BoundToKeys(src)
    ensures ConstraintBacked(ReadCatalog(src))
  {
    var cat := ReadCatalog(src);
    hide Consistent;
    TablesOf(src, OwnedIndexes(src) + BoundIndexes(src));
    forall u, k | u in cat.tables && k in u.constraints ensures ForeignKeyBacked(cat, k) {
      var t :| t in src.tables && u == TableWithout(t, OwnedIndexes(src) + BoundIndexes(src));
      var i :| 0 <= i < |u.constraints| && u.constraints[i] == k;
      assert t.constraints[i] in t.constraints && StandsRight(src, t, t.constraints[i]);
      if k.rule.ForeignKey? {
        BackedBy(m, src, t, t.constraints[i]);
      }
    }
  }

  /** Running the plan of a dump into an empty database rebuilds exactly the database that
      was dumped, whatever the order of its tables and however their foreign keys cross, if
      and only if every foreign key stands on the index of a key and every sequence without
      a last value to read stands at its start. Otherwise a statement is rejected (no key
      covers the columns that a foreign key refers to), an index is missing, or a sequence
      stands elsewhere. */
  lemma Restorable(m: Meaning, src: Source)
    requires Live(m, src)
    ensures var r := Run(m, EmptyDatabase(src.schema), Plan(ReadCatalog(src)));
      && (r.Some? <==> ConstraintBacked(ReadCatalog(src)))
      && (r.Some? && IsSource(r.value, src) <==> BoundToKeys(src) && PositionsRead(src))
  {
    var cat := ReadCatalog(src);
    assert cat.schema == src.schema;
    hide ReadCatalog, IsImage, Run, Plan, BoundToKeys, PositionsRead, ConstraintBacked, IsSource;
    PlanRuns(m, cat);
    var r := Run(m, EmptyDatabase(src.schema), Plan(cat));
    if r.Some? {
      ImageIsSource(r.value, src);
    } else if BoundToKeys(src) {
      BoundIsBacked(m, src);
    }
  }

  // ------------------------------------------------------------- a position that is lost

  function OneSequence(s: PgSequence): Source {
    Source("public", [s], [], {}, {})
  }

  /** The value that a sequence hands out next, while it is within its bounds. */
  function NextValue(s: PgSequence): int {
    if s.position.called then s.position.value + s.incrementBy else s.position.value
  }

  lemma OneSequenceLive(m: Meaning, s: PgSequence)
    requires s.minValue <= s.startValue <= s.maxValue && !s.position.called
    ensures Live(m, OneSequence(s)) && BoundToKeys(OneSequence(s)) && ConstraintBacked(ReadCatalog(OneSequence(s)))
  {
    assert ReadCatalog(OneSequence(s)).tables == [];
  }

  lemma OneSequenceRestored(m: Meaning, s: PgSequence)
    requires s.minValue <= s.startValue <= s.maxValue && !s.position.called
    ensures var r := Run(m, EmptyDatabase("public"), Plan(ReadCatalog(OneSequence(s))));
      r.Some? && s.name in r.value.sequences && r.value.sequences[s.name] == s.(position := Position(s.startValue, false))
  {
    OneSequenceLive(m, s);
    PlanRuns(m, ReadCatalog(OneSequence(s)));
    assert s in OneSequence(s).sequences;
    SequencesOf(OneSequence(s));
    hide Run, Plan, Live, Consistent, TablesImage;
    var row := ReadSequence(s, {});
    assert row in ReadCatalog(OneSequence(s)).sequences;
  }

  /** A sequence that was positioned and not called since, by RESTART WITH or by a setval that
      says so, comes back at its start value: the restore succeeds, and hands out values
      that the source has left behind. */
  lemma PositionLost(m: Meaning, s: PgSequence)
    requires s.minValue <= s.startValue <= s.maxValue && !s.position.called && s.position.value != s.startValue
    ensures Live(m, OneSequence(s))
    ensures var r := Run(m, EmptyDatabase("public"), Plan(ReadCatalog(OneSequence(s))));
      && r.Some? && !IsSource(r.value, OneSequence(s)) && s.name in r.value.sequences
      && NextValue(s) == s.position.value && NextValue(r.value.sequences[s.name]) == s.startValue
  {
    OneSequenceLive(m, s);
    OneSequenceRestored(m, s);
    assert s in OneSequence(s).sequences;
    hide Run, Plan, Live;
  }

  /** One that starts at 1 and was restarted with 100. */
  const RESTARTED := PgSequence("s", "bigint", 1, 1, 9223372036854775807, 1, false, Position(100, false))

  lemma RestartLost(m: Meaning)
    ensures Live(m, OneSequence(RESTARTED)) && NextValue(RESTARTED) == 100
    ensures var r := Run(m, EmptyDatabase("public"), Plan(ReadCatalog(OneSequence(RESTARTED))));
      && r.Some? && !IsSource(r.value, OneSequence(RESTARTED))
      && "s" in r.value.sequences && NextValue(r.value.sequences["s"]) == 1
  {
    hide Run, Plan, Live, IsSource, ReadCatalog;
    PositionLost(m, RESTARTED);
  }

  // ------------------------------------------------------------ two indexes that are lost

  /** Definitions as the server prints them; their texts do not matter here. */
  datatype Definitions = Definitions(code: Column, plain: string, own: string, unique: string, foreign: string)

  /** A plain unique index on the first column ... */
  function PlainIndex(d: Definitions): PgIndex {
    PgIndex(1, Index(d.plain, Some([0])))
  }

  /** ... and one that was made for a UNIQUE constraint. */
  function KeyIndex(d: Definitions): PgIndex {
    PgIndex(2, Index(d.own, Some([0])))
  }

  function UniqueCode(d: Definitions): PgConstraint {
    PgConstraint(Constraint("region_key", d.unique, UniqueKey([0]), false, true), Some(2))
  }

  /** A foreign key that stands on the plain unique index. */
  function RegionOfCompany(d: Definitions): PgConstraint {
    PgConstraint(Constraint("company_fkey", d.foreign, ForeignKey([0], "region", [0]), false, true), Some(1))
  }

  function Company(d: Definitions): PgTable {
    PgTable("company", [d.code], [[Some("eu")]], [RegionOfCompany(d)], [])
  }

  function Region(d: Definitions, constraints: seq<PgConstraint>, indexes: seq<PgIndex>): PgTable {
    PgTable("region", [d.code], [[Some("eu")]], constraints, indexes)
  }

  function TwoTables(d: Definitions, constraints: seq<PgConstraint>, indexes: seq<PgIndex>): Source {
    Source("public", [], [Company(d), Region(d, constraints, indexes)], {}, {})
  }

  /** The plain index is all there is for the foreign key to stand on. */
  function OnlyPlain(d: Definitions): Source {
    TwoTables(d, [], [PlainIndex(d)])
  }

  /** The foreign key stands on the plain index, which is older than the UNIQUE constraint. */
  function KeyCameLater(d: Definitions): Source {
    TwoTables(d, [UniqueCode(d)], [PlainIndex(d), KeyIndex(d)])
  }

  /** What is read of either: two tables without indexes. */
  ghost predicate ReadAs(d: Definitions, cat: Catalog, constraints: seq<Constraint>) {
    && cat.sequences == []
    && cat.tables == [Table("company", [d.code], [[Some("eu")]], [RegionOfCompany(d).constraint], []),
                      Table("region", [d.code], [[Some("eu")]], constraints, [])]
  }

  lemma BoundOnly(src: Source, t: PgTable, u: PgTable, c: PgConstraint, oid: nat)
    requires src.tables == [t, u] && src.outside == {} && t.constraints == [c] && c.constraint.rule.ForeignKey? && c.conindid == Some(oid)
    requires forall k :: k in u.constraints ==> !k.constraint.rule.ForeignKey?
    ensures BoundIndexes(src) == {oid}
  {
    assert t in src.tables && c in t.constraints;
  }

  lemma OwnedOnly(src: Source, t: PgTable, u: PgTable)
    requires src.tables == [t, u] && forall k :: k in t.constraints ==> k.constraint.rule.ForeignKey?
    ensures u.constraints == [] ==> OwnedIndexes(src) == {}
    ensures |u.constraints| == 1 && !u.constraints[0].constraint.rule.ForeignKey? && u.constraints[0].conindid.Some? ==>
              OwnedIndexes(src) == {u.constraints[0].conindid.value}
  {
    assert u in src.tables && (u.constraints != [] ==> u.constraints[0] in u.constraints);
  }

  lemma OnlyPlainRead(d: Definitions)
    ensures BoundIndexes(OnlyPlain(d)) == {1} && OwnedIndexes(OnlyPlain(d)) == {}
    ensures ReadAs(d, ReadCatalog(OnlyPlain(d)), [])
  {
    var src := OnlyPlain(d);
    BoundOnly(src, Company(d), src.tables[1], RegionOfCompany(d), 1);
    OwnedOnly(src, Company(d), src.tables[1]);
    hide BoundIndexes, OwnedIndexes;
    assert {} + {1} == {1};
    assert ConstraintsOf(Company(d)) == [RegionOfCompany(d).constraint] && ConstraintsOf(src.tables[1]) == [];
    assert Without([PlainIndex(d)], {1}) == [];
  }

  lemma KeyCameLaterRead(d: Definitions)
    ensures BoundIndexes(KeyCameLater(d)) == {1} && OwnedIndexes(KeyCameLater(d)) == {2}
    ensures ReadAs(d, ReadCatalog(KeyCameLater(d)), [UniqueCode(d).constraint])
  {
    var src := KeyCameLater(d);
    BoundOnly(src, Company(d), src.tables[1], RegionOfCompany(d), 1);
    OwnedOnly(src, Company(d), src.tables[1]);
    hide BoundIndexes, OwnedIndexes;
    assert {2} + {1} == {1, 2};
    assert ConstraintsOf(Company(d)) == [RegionOfCompany(d).constraint] && ConstraintsOf(src.tables[1]) == [UniqueCode(d).constraint];
    assert [PlainIndex(d), KeyIndex(d)][1..] == [KeyIndex(d)];
    assert Without([KeyIndex(d)], {1, 2}) == [] && Without([PlainIndex(d), KeyIndex(d)], {1, 2}) == [];
  }

  lemma OneRow(row: Row, cols: seq<nat>)
    ensures Distinct([row], cols) && Refers([row], cols, [row], cols)
  {
    if None !in Key(row, cols) {
      assert Key([row][0], cols) == Key([row][0], cols);
    }
  }

  lemma ReadConsistent(m: Meaning, d: Definitions, cat: Catalog, constraints: seq<Constraint>)
    requires !d.code.notNull && d.code.default == None && ReadAs(d, cat, constraints)
    requires constraints == [] || constraints == [UniqueCode(d).constraint]
    ensures Consistent(m, cat)
  {
    var company, region := cat.tables[0], cat.tables[1];
    OneRow([Some("eu")], [0]);
    assert region in cat.tables && company in cat.tables;
    assert ConsistentTable(m, cat, company);
    assert ConsistentTable(m, cat, region);
    assert forall t :: t in cat.tables ==> t == company || t == region;
    hide ConsistentTable;
  }

  lemma SecondIndexed(src: Source, a: PgTable, b: PgTable)
    requires src.tables == [a, b] && a.indexes == [] && forall i, j :: 0 <= i < j < |b.indexes| ==> b.indexes[i].oid != b.indexes[j].oid
    ensures OidsOk(src)
  {
    forall t, u, x, y | t in src.tables && u in src.tables && x in t.indexes && y in u.indexes && x.oid == y.oid
      ensures t == u && x == y
    {
      assert t == b && u == b;
    }
  }

  lemma TwoLive(m: Meaning, src: Source, a: PgTable, b: PgTable, c: PgConstraint)
    requires Consistent(m, ReadCatalog(src)) && OidsOk(src) && src.tables == [a, b]
    requires a.constraints == [c] && StandsRight(src, a, c)
    requires b.constraints == [] || (|b.constraints| == 1 && StandsRight(src, b, b.constraints[0]))
    ensures Live(m, src)
  {
    hide Consistent, ReadCatalog, OidsOk;
    forall t, k | t in src.tables && k in t.constraints ensures StandsRight(src, t, k) {
      assert t == a || t == b;
    }
  }

  lemma OnlyPlainStands(d: Definitions)
    ensures StandsRight(OnlyPlain(d), Company(d), RegionOfCompany(d))
  {
    var src := OnlyPlain(d);
    assert HasUniqueIndex(src.tables[1], 1, [0]) by { assert PlainIndex(d) in src.tables[1].indexes; }
    assert src.tables[1] in src.tables;
  }

  lemma OnlyPlainLive(m: Meaning, d: Definitions)
    requires !d.code.notNull && d.code.default == None
    ensures Live(m, OnlyPlain(d))
  {
    var src := OnlyPlain(d);
    OnlyPlainRead(d);
    hide ReadCatalog, BoundIndexes, OwnedIndexes;
    ReadConsistent(m, d, ReadCatalog(src), []);
    hide Consistent;
    SecondIndexed(src, Company(d), src.tables[1]);
    OnlyPlainStands(d);
    hide StandsRight, OidsOk;
    TwoLive(m, src, Company(d), src.tables[1], RegionOfCompany(d));
  }

  lemma OnlyPlainUnbacked(d: Definitions)
    ensures !ConstraintBacked(ReadCatalog(OnlyPlain(d)))
  {
    var cat := ReadCatalog(OnlyPlain(d));
    OnlyPlainRead(d);
    hide ReadCatalog, BoundIndexes, OwnedIndexes;
    assert cat.tables[0] in cat.tables && cat.tables[0].constraints[0] in cat.tables[0].constraints;
    assert !ForeignKeyBacked(cat, RegionOfCompany(d).constraint);
  }

  lemma KeyCameLaterStands(d: Definitions)
    ensures StandsRight(KeyCameLater(d), Company(d), RegionOfCompany(d))
    ensures StandsRight(KeyCameLater(d), KeyCameLater(d).tables[1], UniqueCode(d))
  {
    var src := KeyCameLater(d);
    assert HasUniqueIndex(src.tables[1], 1, [0]) by { assert PlainIndex(d) in src.tables[1].indexes; }
    assert HasUniqueIndex(src.tables[1], 2, [0]) by { assert KeyIndex(d) in src.tables[1].indexes; }
    assert src.tables[1] in src.tables;
  }

  lemma KeyCameLaterLive(m: Meaning, d: Definitions)
    requires !d.code.notNull && d.code.default == None
    ensures Live(m, KeyCameLater(d))
  {
    var src, cat := KeyCameLater(d), ReadCatalog(KeyCameLater(d));
    KeyCameLaterRead(d);
    hide ReadCatalog, BoundIndexes, OwnedIndexes;
    ReadConsistent(m, d, cat, [UniqueCode(d).constraint]);
    hide Consistent;
    SecondIndexed(src, Company(d), src.tables[1]);
    KeyCameLaterStands(d);
    hide StandsRight, OidsOk;
    TwoLive(m, src, Company(d), src.tables[1], RegionOfCompany(d));
  }

  lemma KeyCameLaterBacked(d: Definitions)
    ensures ConstraintBacked(ReadCatalog(KeyCameLater(d))) && !BoundToKeys(KeyCameLater(d))
  {
    var src, cat := KeyCameLater(d), ReadCatalog(KeyCameLater(d));
    KeyCameLaterRead(d);
    hide ReadCatalog, BoundIndexes, OwnedIndexes;
    var region := cat.tables[1];
    assert region in cat.tables && region.constraints[0] in region.constraints;
    assert KeyOn(region.constraints[0], [0]);
    assert Backed(region, [0]);
    assert src.tables[1] in src.tables && PlainIndex(d) in src.tables[1].indexes;
  }

  /** A foreign key that stands on a plain unique index is dumped without the index: if no key
      covers the same columns the dump is rejected, and if one does the restored database
      lacks the index. */
  lemma PlainIndexLost(m: Meaning, d: Definitions)
    requires !d.code.notNull && d.code.default == None
    ensures Live(m, OnlyPlain(d)) && Run(m, EmptyDatabase("public"), Plan(ReadCatalog(OnlyPlain(d)))).None?
    ensures Live(m, KeyCameLater(d))
    ensures var r := Run(m, EmptyDatabase("public"), Plan(ReadCatalog(KeyCameLater(d)))); r.Some? && !IsSource(r.value, KeyCameLater(d))
  {
    assert OnlyPlain(d).schema == KeyCameLater(d).schema == "public";
    hide *;
    OnlyPlainLive(m, d);
    OnlyPlainUnbacked(d);
    Restorable(m, OnlyPlain(d));
    KeyCameLaterLive(m, d);
    Restorable(m, KeyCameLater(d));
    KeyCameLaterBacked(d);
  }
}
