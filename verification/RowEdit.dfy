/** Editing single rows of a query result (internal/service/postgres_query.go, rowKey of
    ui/src/features/services/detail/console/QueryResultTable.tsx). */
module RowEdit {
  import opened Text
  import opened Order
  import opened Quoting

  // --------------------------------------------------------------------- the predicate

  /** A condition: a column and the number of the parameter it is compared with. */
  datatype Condition = Condition(column: string, param: nat)

  function ConditionText(c: Condition): string {
    QuoteIdent(c.column) + " = $" + Digits(c.param)
  }

  function ConditionsFrom(names: seq<string>, start: nat): seq<Condition> {
    seq(|names|, i requires 0 <= i < |names| => Condition(names[i], start + i))
  }

  function Texts(conditions: seq<Condition>): seq<string> {
    seq(|conditions|, i requires 0 <= i < |conditions| => ConditionText(conditions[i]))
  }

  function WhereText(conditions: seq<Condition>): string {
    Join(Texts(conditions), " AND ")
  }

  /** A key's columns, in order, and their values. */
  ghost predicate IsArguments(key: map<string, string>, names: seq<string>, args: seq<string>) {
    && IsListing(names, key.Keys) && |args| == |names|
    && forall i :: 0 <= i < |names| ==> names[i] in key && args[i] == key[names[i]]
  }

  /** The clause and its arguments: the key's columns in order, so that the placeholders and
      the arguments line up whatever order the map is walked in. */
  method WhereClause(key: map<string, string>, start: nat) returns (where: string, args: seq<string>)
    ensures exists names :: IsArguments(key, names, args) && where == WhereText(ConditionsFrom(names, start))
  {
    hide QuoteIdent, Digits, Join;
    var names := SortedKeys(key.Keys);
    var conditions := [];
    args := [];
    for i := 0 to |names|
      invariant |conditions| == |args| == i
      invariant forall k :: 0 <= k < i ==> conditions[k] == ConditionText(Condition(names[k], start + k))
      invariant forall k :: 0 <= k < i ==> names[k] in key && args[k] == key[names[k]]
    {
      assert names[i] in names;
      conditions := conditions + [QuoteIdent(names[i]) + " = $" + Digits(start + i)];
      args := args + [key[names[i]]];
    }
    assert conditions == Texts(ConditionsFrom(names, start));
    where := Join(conditions, " AND ");
  }

  // ---------------------------------------------------------------- reading it as SQL

  /** `"column" = $n` at the front of a text. */
  function ReadCondition(s: string): (r: Option<(Condition, string)>)
    ensures r.Some? ==> |r.value.1| < |s|
  {
    match ReadIdent(s)
    case None => None
    case Some((column, rest)) =>
      match DropPrefix(" = $", rest)
      case None => None
      case Some(tail) =>
        var digits := TakeDigits(tail);
        TakeDigitsShort(tail);
        DigitsValueNat(digits);
        if digits == "" then None else Some((Condition(column, DigitsValue(digits)), tail[|digits|..]))
  }

  /** Conditions joined by AND; no condition at all is a syntax error. */
  function ReadWhere(s: string): Option<seq<Condition>>
    decreases |s|
  {
    match ReadCondition(s)
    case None => None
    case Some((c, rest)) =>
      if rest == "" then Some([c])
      else
        match DropPrefix(" AND ", rest)
        case None => None
        case Some(tail) =>
          match ReadWhere(tail)
          case None => None
          case Some(more) => Some([c] + more)
  }

  lemma ReadsConditionBack(c: Condition, rest: string)
    requires rest == "" || !('0' <= rest[0] <= '9')
    ensures ReadCondition(ConditionText(c) + rest) == Some((c, rest))
  {
    hide ReadIdent, QuoteIdent, Digits, DigitsValue;
    var tail := Digits(c.param) + rest;
    var s := " = $" + tail;
    assert ConditionText(c) + rest == QuoteIdent(c.column) + s;
    QuoteIdentLossless(c.column, s);
    assert s[|" = $"|..] == tail;
    TakeDigitsOf(Digits(c.param), rest);
    DigitsRoundTrip(c.param);
    assert tail[|Digits(c.param)|..] == rest;
  }

  lemma WhereStep(conditions: seq<Condition>)
    requires conditions != []
    ensures WhereText(conditions)
      == ConditionText(conditions[0]) + if |conditions| == 1 then "" else " AND " + WhereText(conditions[1..])
  {
    hide ConditionText, Join;
    assert Texts(conditions)[1..] == Texts(conditions[1..]);
    JoinStep(Texts(conditions), " AND ");
  }

  lemma ReadsOne(c: Condition)
    ensures ReadWhere(ConditionText(c) + "") == Some([c])
  {
    hide ReadCondition, ConditionText;
    ReadsConditionBack(c, "");
  }

  lemma ReadsMore(c: Condition, text: string, more: seq<Condition>)
    requires ReadWhere(text) == Some(more)
    ensures ReadWhere(ConditionText(c) + (" AND " + text)) == Some([c] + more)
  {
    hide ReadCondition, ConditionText;
    var tail := " AND " + text;
    ReadsConditionBack(c, tail);
    assert DropPrefix(" AND ", tail) == Some(text) by { assert tail[5..] == text; }
  }

  /** A clause reads back as its conditions, whatever the columns' names hold; an empty one is
      a syntax error. */
  lemma {:induction false} ReadsWhereBack(conditions: seq<Condition>)
    ensures ReadWhere(WhereText(conditions)) == if conditions == [] then None else Some(conditions)
  {
    if conditions == [] {
      assert Texts(conditions) == [] && ReadIdent("") == None;
    } else {
      hide *;
      var rest := conditions[1..];
      WhereStep(conditions);
      assert [conditions[0]] + rest == conditions;
      if rest == [] {
        ReadsOne(conditions[0]);
        assert [conditions[0]] == conditions;
      } else {
        ReadsWhereBack(rest);
        ReadsMore(conditions[0], WhereText(rest), rest);
      }
    }
  }

  // --------------------------------------------------------------------------- tables

  /** A row: its columns' values, absent for NULL. */
  type Row<V> = map<string, Option<V>>

  /** How a column's type reads text, if it can. */
  type Coercion<!V> = (string, string) -> Option<V>

  /** A column equals a text: NULL never does. */
  predicate ColumnEquals<V(==)>(row: Row<V>, column: string, coerce: Coercion<V>, text: string) {
    column in row && row[column].Some? && coerce(column, text) == row[column]
  }

  /** Every key column equals its value: what an edit is meant to address. */
  predicate KeyMatches<V(==)>(key: map<string, string>, coerce: Coercion<V>, row: Row<V>) {
    forall name :: name in key ==> ColumnEquals(row, name, coerce, key[name])
  }

  predicate Holds<V(==)>(c: Condition, params: seq<string>, coerce: Coercion<V>, row: Row<V>) {
    1 <= c.param <= |params| && ColumnEquals(row, c.column, coerce, params[c.param - 1])
  }

  /** What the database evaluates: every condition, with its parameter. */
  predicate Satisfies<V(==)>(conditions: seq<Condition>, params: seq<string>, coerce: Coercion<V>, row: Row<V>) {
    forall i :: 0 <= i < |conditions| ==> Holds(conditions[i], params, coerce, row)
  }

  lemma ListedNames(key: map<string, string>, names: seq<string>, args: seq<string>)
    requires IsArguments(key, names, args)
    ensures forall name :: name in names <==> name in key
  {
  }

  lemma ConditionAt<V>(key: map<string, string>, names: seq<string>, start: nat, before: seq<string>, args: seq<string>,
                       coerce: Coercion<V>, row: Row<V>, i: nat)
    requires IsArguments(key, names, args) && start == |before| + 1 && i < |names|
    ensures names[i] in key
    ensures Holds(ConditionsFrom(names, start)[i], before + args, coerce, row) <==> ColumnEquals(row, names[i], coerce, key[names[i]])
  {
    assert (before + args)[start + i - 1] == args[i];
  }

  /** Placeholders and arguments stay aligned: with the key's arguments after `start - 1`
      others, the clause means that every key column equals its value. */
  lemma ClauseMeansKey<V>(key: map<string, string>, names: seq<string>, start: nat, before: seq<string>, args: seq<string>,
                          coerce: Coercion<V>, row: Row<V>)
    requires IsArguments(key, names, args) && start == |before| + 1
    ensures Satisfies(ConditionsFrom(names, start), before + args, coerce, row) <==> KeyMatches(key, coerce, row)
  {
    hide ColumnEquals, IsListing, IsArguments, Holds;
    var conditions, params := ConditionsFrom(names, start), before + args;
    ListedNames(key, names, args);
    forall i | 0 <= i < |names|
      ensures names[i] in key && (Holds(conditions[i], params, coerce, row) <==> ColumnEquals(row, names[i], coerce, key[names[i]])) {
      ConditionAt(key, names, start, before, args, coerce, row, i);
    }
    if Satisfies(conditions, params, coerce, row) {
      forall name | name in key ensures ColumnEquals(row, name, coerce, key[name]) {
        var i :| 0 <= i < |names| && names[i] == name;
        assert Holds(conditions[i], params, coerce, row);
      }
    }
  }

  ghost predicate AgreeOn<V>(a: Row<V>, b: Row<V>, pk: set<string>) {
    forall k :: k in pk ==> k in a && k in b && a[k].Some? && a[k] == b[k]
  }

  /** The primary key's columns are not null, and no two rows agree on all of them. */
  ghost predicate KeyUnique<V>(rows: seq<Row<V>>, pk: set<string>) {
    forall i, j :: 0 <= i < j < |rows| ==> !AgreeOn(rows[i], rows[j], pk)
  }

  lemma KeyUniqueDiffers<V>(rows: seq<Row<V>>, pk: set<string>, i: nat, j: nat)
    requires KeyUnique(rows, pk) && i < |rows| && j < |rows| && i != j
    ensures !AgreeOn(rows[i], rows[j], pk)
  {
    if j < i && AgreeOn(rows[i], rows[j], pk) {
      assert AgreeOn(rows[j], rows[i], pk);
    }
  }

  /** A key with a value for each primary-key column matches at most one row. */
  lemma AtMostOne<V>(rows: seq<Row<V>>, pk: set<string>, key: map<string, string>, coerce: Coercion<V>, i: nat, j: nat)
    requires KeyUnique(rows, pk) && pk <= key.Keys
    requires i < |rows| && j < |rows| && KeyMatches(key, coerce, rows[i]) && KeyMatches(key, coerce, rows[j])
    ensures i == j
  {
    forall k | k in pk ensures k in rows[i] && k in rows[j] && rows[i][k].Some? && rows[i][k] == rows[j][k] {
      assert ColumnEquals(rows[i], k, coerce, key[k]) && ColumnEquals(rows[j], k, coerce, key[k]);
    }
    if i != j {
      KeyUniqueDiffers(rows, pk, i, j);
    }
  }

  // -------------------------------------------------------------------------- the edits

  /** What the statements say. */
  datatype Update = Update(schema: string, table: string, column: string, conditions: seq<Condition>)
  datatype Delete = Delete(schema: string, table: string, conditions: seq<Condition>)

  /** An UPDATE of one column to the first parameter. */
  function ReadUpdate(s: string): Option<Update> {
    match DropPrefix("UPDATE ", s)
    case None => None
    case Some(s1) =>
      match ReadQualified(s1)
      case None => None
      case Some((t, s2)) =>
        match DropPrefix(" SET ", s2)
        case None => None
        case Some(s3) =>
          match ReadIdent(s3)
          case None => None
          case Some((column, s4)) =>
            match DropPrefix(" = $1 WHERE ", s4)
            case None => None
            case Some(s5) =>
              match ReadWhere(s5)
              case None => None
              case Some(conditions) => Some(Update(t.0, t.1, column, conditions))
  }

  function ReadDelete(s: string): Option<Delete> {
    match DropPrefix("DELETE FROM ", s)
    case None => None
    case Some(s1) =>
      match ReadQualified(s1)
      case None => None
      case Some((t, s2)) =>
        match DropPrefix(" WHERE ", s2)
        case None => None
        case Some(s3) =>
          match ReadWhere(s3)
          case None => None
          case Some(conditions) => Some(Delete(t.0, t.1, conditions))
  }

  function UpdateText(schema: string, table: string, column: string, where: string): string {
    "UPDATE " + Qualified(schema, table) + " SET " + QuoteIdent(column) + " = $1 WHERE " + where
  }

  function DeleteText(schema: string, table: string, where: string): string {
    "DELETE FROM " + Qualified(schema, table) + " WHERE " + where
  }

  /** The statements name exactly their table, their column and their conditions. */
  lemma ReadsUpdateBack(schema: string, table: string, column: string, conditions: seq<Condition>)
    ensures ReadUpdate(UpdateText(schema, table, column, WhereText(conditions)))
      == if conditions == [] then None else Some(Update(schema, table, column, conditions))
  {
    hide ReadIdent, QuoteIdent, ReadQualified, ReadWhere, WhereText;
    var where := WhereText(conditions);
    var s4 := " = $1 WHERE " + where;
    var s3 := QuoteIdent(column) + s4;
    var s2 := " SET " + s3;
    var s1 := Qualified(schema, table) + s2;
    assert UpdateText(schema, table, column, where) == "UPDATE " + s1;
    assert ("UPDATE " + s1)[7..] == s1 && s2[5..] == s3 && s4[12..] == where;
    ReadsQualifiedBack(schema, table, s2);
    QuoteIdentLossless(column, s4);
    ReadsWhereBack(conditions);
  }

  lemma ReadsDeleteBack(schema: string, table: string, conditions: seq<Condition>)
    ensures ReadDelete(DeleteText(schema, table, WhereText(conditions)))
      == if conditions == [] then None else Some(Delete(schema, table, conditions))
  {
    hide ReadIdent, QuoteIdent, ReadQualified, ReadWhere, WhereText;
    var where := WhereText(conditions);
    var s2 := " WHERE " + where;
    var s1 := Qualified(schema, table) + s2;
    assert DeleteText(schema, table, where) == "DELETE FROM " + s1;
    assert ("DELETE FROM " + s1)[12..] == s1 && s2[7..] == where;
    ReadsQualifiedBack(schema, table, s2);
    ReadsWhereBack(conditions);
  }

  type TableName = (string, string)

  ghost predicate Updated<V>(before: map<TableName, seq<Row<V>>>, after: map<TableName, seq<Row<V>>>, u: Update,
                             value: Option<string>, args: seq<string>, coerce: Coercion<V>) {
    var t := (u.schema, u.table);
    && t in before && t in after && after == before[t := after[t]] && |after[t]| == |before[t]|
    && (value.Some? ==> coerce(u.column, value.value).Some?)
    && forall i :: 0 <= i < |before[t]| ==>
         after[t][i] == (if Satisfies(u.conditions, [if value == None then "" else value.value] + args, coerce, before[t][i])
                         then before[t][i][u.column := if value == None then None else coerce(u.column, value.value)]
                         else before[t][i])
  }

  predicate IsUnique<V(==)>(rows: seq<Row<V>>, pk: set<string>)
    ensures IsUnique(rows, pk) ==> KeyUnique(rows, pk)
  {
    forall i, j :: 0 <= i < j < |rows| ==>
      exists k :: k in pk && !(k in rows[i] && k in rows[j] && rows[i][k].Some? && rows[i][k] == rows[j][k])
  }

  /** The rows that satisfy no condition list. */
  function Kept<V(==)>(rows: seq<Row<V>>, conditions: seq<Condition>, params: seq<string>, coerce: Coercion<V>): seq<Row<V>> {
    if rows == [] then []
    else
      Kept(rows[..|rows| - 1], conditions, params, coerce)
      + if Satisfies(conditions, params, coerce, rows[|rows| - 1]) then [] else [rows[|rows| - 1]]
  }

  ghost predicate Deleted<V>(before: map<TableName, seq<Row<V>>>, after: map<TableName, seq<Row<V>>>, d: Delete,
                             args: seq<string>, coerce: Coercion<V>) {
    var t := (d.schema, d.table);
    t in before && after == before[t := Kept(before[t], d.conditions, args, coerce)]
  }

  lemma {:induction false} KeptUnique<V>(rows: seq<Row<V>>, pk: set<string>, conditions: seq<Condition>, params: seq<string>, coerce: Coercion<V>)
    requires KeyUnique(rows, pk)
    ensures KeyUnique(Kept(rows, conditions, params, coerce), pk)
    ensures forall r :: r in Kept(rows, conditions, params, coerce) ==> r in rows
  {
    if rows == [] {
    } else {
      var front, last := rows[..|rows| - 1], rows[|rows| - 1];
      KeptUnique(front, pk, conditions, params, coerce);
      var kept := Kept(front, conditions, params, coerce);
      forall i | 0 <= i < |kept| ensures !AgreeOn(kept[i], last, pk) {
        assert kept[i] in front;
        var j :| 0 <= j < |front| && front[j] == kept[i];
        assert !AgreeOn(rows[j], rows[|rows| - 1], pk);
      }
    }
  }

  /** The database: its tables' rows and primary keys, and how it coerces text. A statement
      either takes effect as a whole or fails and changes nothing. */
  class Database<V(==)> {
    var tables: map<TableName, seq<Row<V>>>
    const keys: map<TableName, set<string>>
    const coerce: Coercion<V>

    constructor (tables: map<TableName, seq<Row<V>>>, keys: map<TableName, set<string>>, coerce: Coercion<V>)
      ensures this.tables == tables && this.keys == keys && this.coerce == coerce
    {
      this.tables, this.keys, this.coerce := tables, keys, coerce;
    }

    ghost predicate Valid()
      reads this
    {
      forall t :: t in tables && t in keys ==> KeyUnique(tables[t], keys[t])
    }

    /** Runs an UPDATE: a missing value is NULL, and the primary key must stay one. */
    method ExecUpdate(sql: string, value: Option<string>, args: seq<string>) returns (ok: bool)
      requires Valid()
      modifies this
      ensures Valid()
      ensures !ok ==> tables == old(tables)
      ensures ok ==> ReadUpdate(sql).Some? && Updated(old(tables), tables, ReadUpdate(sql).value, value, args, coerce)
    {
      var u := ReadUpdate(sql);
      if u == None || (u.value.schema, u.value.table) !in tables {
        return false;
      }
      var t := (u.value.schema, u.value.table);
      var set_ := if value == None then None else coerce(u.value.column, value.value);
      if value.Some? && set_ == None {
        return false;
      }
      if value == None && t in keys && u.value.column in keys[t] {
        return false;
      }
      var params := [if value == None then "" else value.value] + args;
      var rows := tables[t];
      var changed := seq(|rows|, i requires 0 <= i < |rows| =>
        if Satisfies(u.value.conditions, params, coerce, rows[i]) then rows[i][u.value.column := set_] else rows[i]);
      if t in keys && !IsUnique(changed, keys[t]) {
        return false;
      }
      tables := tables[t := changed];
      ok := true;
    }

    method ExecDelete(sql: string, args: seq<string>) returns (ok: bool)
      requires Valid()
      modifies this
      ensures Valid()
      ensures !ok ==> tables == old(tables)
      ensures ok ==> ReadDelete(sql).Some? && Deleted(old(tables), tables, ReadDelete(sql).value, args, coerce)
    {
      var d := ReadDelete(sql);
      if d == None || (d.value.schema, d.value.table) !in tables {
        return false;
      }
      var t := (d.value.schema, d.value.table);
      if t in keys {
        KeptUnique(tables[t], keys[t], d.value.conditions, args, coerce);
      }
      tables := tables[t := Kept(tables[t], d.value.conditions, args, coerce)];
      ok := true;
    }
  }

  /** A row mutation: the key's columns and values, the column to set and its value. */
  datatype Mutation = Mutation(schema: string, table: string, key: map<string, string>, column: string, value: Option<string>)

  /** No table but one changes, and that one keeps its number of rows. */
  ghost predicate OnlyAddressed<V>(before: map<TableName, seq<Row<V>>>, after: map<TableName, seq<Row<V>>>, t: TableName) {
    t in before && t in after && after == before[t := after[t]] && |after[t]| == |before[t]|
  }

  /** Exactly the rows that the key addresses have the column set; all others are as before. */
  ghost predicate AddressedRowsSet<V>(before: seq<Row<V>>, after: seq<Row<V>>, m: Mutation, coerce: Coercion<V>)
    requires m.value.Some? ==> coerce(m.column, m.value.value).Some?
  {
    && |after| == |before|
    && forall i :: 0 <= i < |before| ==>
         after[i] == (if KeyMatches(m.key, coerce, before[i])
                      then before[i][m.column := if m.value == None then None else coerce(m.column, m.value.value)]
                      else before[i])
  }

  lemma KeyNotEmpty(key: map<string, string>, names: seq<string>, args: seq<string>)
    requires IsArguments(key, names, args)
    ensures names == [] <==> key == map[]
  {
    if names != [] {
      assert names[0] in key;
    }
    if key != map[] {
      var k :| k in key;
      assert k in names;
    }
  }

  /** Sets one column of the rows that the key addresses, and of no others. An empty key is a
      syntax error. */
  method UpdateRow<V(==)>(db: Database<V>, m: Mutation) returns (ok: bool)
    requires db.Valid()
    modifies db
    ensures db.Valid()
    ensures !ok ==> db.tables == old(db.tables)
    ensures ok ==> m.key != map[] && (m.schema, m.table) in old(db.tables)
    ensures ok ==> m.value.Some? ==> db.coerce(m.column, m.value.value).Some?
    ensures ok ==> OnlyAddressed(old(db.tables), db.tables, (m.schema, m.table))
    ensures ok ==> AddressedRowsSet(old(db.tables)[(m.schema, m.table)], db.tables[(m.schema, m.table)], m, db.coerce)
  {
    hide ReadUpdate, UpdateText, WhereText, KeyUnique, Satisfies, KeyMatches, IsArguments;
    ghost var before := db.tables;
    var where, args := WhereClause(m.key, 2);
    ghost var names :| IsArguments(m.key, names, args) && where == WhereText(ConditionsFrom(names, 2));
    ReadsUpdateBack(m.schema, m.table, m.column, ConditionsFrom(names, 2));
    ok := db.ExecUpdate(UpdateText(m.schema, m.table, m.column, where), m.value, args);
    if ok {
      KeyNotEmpty(m.key, names, args);
      ghost var t := (m.schema, m.table);
      ghost var first := [if m.value == None then "" else m.value.value];
      forall i | 0 <= i < |before[t]|
        ensures Satisfies(ConditionsFrom(names, 2), first + args, db.coerce, before[t][i]) <==> KeyMatches(m.key, db.coerce, before[t][i]) {
        ClauseMeansKey(m.key, names, 2, first, args, db.coerce, before[t][i]);
      }
    }
  }

  /** The rows that the key does not address. */
  function NotAddressed<V(==)>(rows: seq<Row<V>>, key: map<string, string>, coerce: Coercion<V>): seq<Row<V>> {
    if rows == [] then []
    else
      NotAddressed(rows[..|rows| - 1], key, coerce)
      + if KeyMatches(key, coerce, rows[|rows| - 1]) then [] else [rows[|rows| - 1]]
  }

  lemma {:induction false} KeptIsNotAddressed<V>(rows: seq<Row<V>>, key: map<string, string>,
                                                 names: seq<string>, args: seq<string>, coerce: Coercion<V>)
    requires IsArguments(key, names, args)
    ensures Kept(rows, ConditionsFrom(names, 1), args, coerce) == NotAddressed(rows, key, coerce)
  {
    if rows == [] {
    } else {
      KeptIsNotAddressed(rows[..|rows| - 1], key, names, args, coerce);
      ClauseMeansKey(key, names, 1, [], args, coerce, rows[|rows| - 1]);
      assert [] + args == args;
    }
  }

  /** The table is left with the rows that the key does not address, in order. */
  ghost predicate WithoutAddressed<V>(before: map<TableName, seq<Row<V>>>, after: map<TableName, seq<Row<V>>>, m: Mutation, coerce: Coercion<V>) {
    var t := (m.schema, m.table);
    t in before && after == before[t := NotAddressed(before[t], m.key, coerce)]
  }

  /** Removes the rows that the key addresses, and no others. */
  method DeleteRow<V(==)>(db: Database<V>, m: Mutation) returns (ok: bool)
    requires db.Valid()
    modifies db
    ensures db.Valid()
    ensures !ok ==> db.tables == old(db.tables)
    ensures ok ==> m.key != map[] && (m.schema, m.table) in old(db.tables)
    ensures ok ==> WithoutAddressed(old(db.tables), db.tables, m, db.coerce)
  {
    hide ReadDelete, DeleteText, WhereText, KeyUnique, Satisfies, KeyMatches, IsArguments, Kept, NotAddressed;
    ghost var before := db.tables;
    var where, args := WhereClause(m.key, 1);
    ghost var names :| IsArguments(m.key, names, args) && where == WhereText(ConditionsFrom(names, 1));
    ReadsDeleteBack(m.schema, m.table, ConditionsFrom(names, 1));
    ok := db.ExecDelete(DeleteText(m.schema, m.table, where), args);
    if ok {
      KeyNotEmpty(m.key, names, args);
      KeptIsNotAddressed(before[(m.schema, m.table)], m.key, names, args, db.coerce);
    }
  }

  // --------------------------------------------------------------------- editability

  /** Where a result column comes from: a table and an attribute of it, or neither. */
  datatype ColumnMeta = ColumnMeta(tableOid: nat, attnum: nat)

  /** What the catalog says of a table; the lookups may fail. */
  datatype TableInfo = TableInfo(schema: string, table: string, names: map<nat, string>, pk: seq<string>)

  datatype EditableInfo = EditableInfo(schema: string, table: string, primaryKey: seq<string>, columns: seq<string>)

  /** A result column shows an attribute of this table. */
  predicate Traces(m: ColumnMeta, oid: nat, info: TableInfo) {
    m.tableOid == oid && m.attnum > 0 && m.attnum in info.names
  }

  /** Every column that traces to a table traces to this one, and some column does. */
  ghost predicate OnlyTable(metas: seq<ColumnMeta>, oid: nat) {
    && oid != 0
    && (exists i :: 0 <= i < |metas| && metas[i].tableOid == oid)
    && (forall i :: 0 <= i < |metas| && metas[i].tableOid != 0 ==> metas[i].tableOid == oid)
  }

  /** The one table of a result, if all its table columns agree on it. */
  method SingleTable(metas: seq<ColumnMeta>) returns (oid: nat)
    ensures oid != 0 ==> OnlyTable(metas, oid)
    ensures oid == 0 ==> forall x :: !OnlyTable(metas, x)
  {
    oid := 0;
    for i := 0 to |metas|
      invariant oid == 0 ==> forall k :: 0 <= k < i ==> metas[k].tableOid == 0
      invariant oid != 0 ==> exists k :: 0 <= k < i && metas[k].tableOid == oid
      invariant oid != 0 ==> forall k :: 0 <= k < i && metas[k].tableOid != 0 ==> metas[k].tableOid == oid
    {
      if metas[i].tableOid != 0 {
        if oid == 0 {
          oid := metas[i].tableOid;
        } else if oid != metas[i].tableOid {
          return 0;
        }
      }
    }
  }

  ghost predicate IsEditable(metas: seq<ColumnMeta>, catalog: map<nat, TableInfo>, oid: nat) {
    && OnlyTable(metas, oid) && oid in catalog && catalog[oid].pk != []
    && forall k :: k in catalog[oid].pk ==>
      exists i :: 0 <= i < |metas| && Traces(metas[i], oid, catalog[oid]) && catalog[oid].names[metas[i].attnum] == k
  }

  /** What an editable result is said to show: its table as the catalog has it, and for each
      result column the attribute of the table that it shows, empty for none. */
  ghost predicate Describes(e: EditableInfo, metas: seq<ColumnMeta>, oid: nat, info: TableInfo) {
    && e.schema == info.schema && e.table == info.table && e.primaryKey == info.pk
    && |e.columns| == |metas|
    && forall i :: 0 <= i < |metas| ==>
      && (Traces(metas[i], oid, info) ==> e.columns[i] == info.names[metas[i].attnum])
      && (!Traces(metas[i], oid, info) ==> e.columns[i] == "")
  }

  /** A result is editable exactly when it comes from one table that the catalog knows, with a
      primary key all of whose columns are in the result. */
  method Editable(metas: seq<ColumnMeta>, catalog: map<nat, TableInfo>) returns (e: Option<EditableInfo>)
    requires forall oid :: oid in catalog ==> "" !in catalog[oid].pk
    ensures match e
            case Some(info) => exists oid :: IsEditable(metas, catalog, oid) && Describes(info, metas, oid, catalog[oid])
            case None => forall oid :: !IsEditable(metas, catalog, oid)
  {
    var oid := SingleTable(metas);
    if oid == 0 || oid !in catalog || |catalog[oid].pk| == 0 {
      return None;
    }
    var info := catalog[oid];
    var cols: seq<string> := [];
    var present := {};
    for i := 0 to |metas|
      invariant |cols| == i
      invariant forall k :: 0 <= k < i ==> cols[k] == if Traces(metas[k], oid, info) then info.names[metas[k].attnum] else ""
      invariant forall c :: c in present <==> exists k :: 0 <= k < i && Traces(metas[k], oid, info) && info.names[metas[k].attnum] == c
    {
      var m := metas[i];
      if m.tableOid == oid && m.attnum > 0 && m.attnum in info.names {
        cols := cols + [info.names[m.attnum]];
        present := present + {info.names[m.attnum]};
      } else {
        cols := cols + [""];
      }
    }
    for i := 0 to |info.pk|
      invariant forall k :: 0 <= k < i ==> info.pk[k] in present
    {
      if info.pk[i] !in present {
        assert info.pk[i] in info.pk;
        return None;
      }
    }
    e := Some(EditableInfo(info.schema, info.table, info.pk, cols));
    assert IsEditable(metas, catalog, oid) && Describes(e.value, metas, oid, info);
  }

  // ------------------------------------------------------------------------- row keys

  function IndexOf(list: seq<string>, x: string): (i: int)
    ensures x in list ==> 0 <= i < |list| && list[i] == x
    ensures x !in list ==> i == -1
  {
    if list == [] then -1
    else if list[0] == x then 0
    else
      var i := IndexOf(list[1..], x);
      if i < 0 then -1 else i + 1
  }

  /** How the client turns a stored value of a column into text: it arrives as JSON, becomes a
      JavaScript value, and is printed. */
  type Display<!V> = (string, V) -> string

  /** The text of a key cell; NULL has none. */
  function KeyText<V>(shown: Display<V>, column: string, cell: Option<V>): string {
    if cell == None then "" else shown(column, cell.value)
  }

  /** A key made from the cells of a row: for each key column the text of its cell. */
  ghost predicate IsRowKey<V>(editable: EditableInfo, cells: seq<Option<V>>, shown: Display<V>, key: map<string, string>)
    requires |cells| == |editable.columns|
  {
    && key.Keys == (set k | k in editable.primaryKey)
    && forall k :: k in key ==> exists j :: 0 <= j < |cells| && editable.columns[j] == k && key[k] == KeyText(shown, k, cells[j])
  }

  /** The key of a result row, if all key columns are in the result. */
  method RowKey<V>(editable: EditableInfo, cells: seq<Option<V>>, shown: Display<V>) returns (key: Option<map<string, string>>)
    requires |cells| == |editable.columns|
    ensures key.Some? <==> forall k :: k in editable.primaryKey ==> k in editable.columns
    ensures key.Some? ==> IsRowKey(editable, cells, shown, key.value)
  {
    var built: map<string, string> := map[];
    for i := 0 to |editable.primaryKey|
      invariant built.Keys == set k | k in editable.primaryKey[..i]
      invariant forall k :: k in editable.primaryKey[..i] ==> k in editable.columns
      invariant forall k :: k in built ==>
        exists j :: 0 <= j < |cells| && editable.columns[j] == k && built[k] == KeyText(shown, k, cells[j])
    {
      var pk := editable.primaryKey[i];
      assert editable.primaryKey[..i + 1] == editable.primaryKey[..i] + [pk];
      var j := IndexOf(editable.columns, pk);
      if j < 0 {
        assert pk in editable.primaryKey;
        return None;
      }
      var text := KeyText(shown, pk, cells[j]);
      assert editable.columns[j] == pk && text == built[pk := text][pk];
      built := built[pk := text];
    }
    assert editable.primaryKey[..|editable.primaryKey|] == editable.primaryKey;
    key := Some(built);
  }

  /** The text of a stored value is read back as that value. */
  ghost predicate ComesBack<V>(coerce: Coercion<V>, shown: Display<V>, column: string, value: Option<V>) {
    value.Some? && coerce(column, shown(column, value.value)) == value
  }

  /** The key cells of a result row were read from a stored row. */
  ghost predicate ReadFrom<V>(editable: EditableInfo, cells: seq<Option<V>>, row: Row<V>)
    requires |cells| == |editable.columns|
  {
    forall j :: 0 <= j < |cells| && editable.columns[j] in editable.primaryKey ==>
      editable.columns[j] in row && cells[j] == row[editable.columns[j]]
  }

  lemma KeyCell<V>(editable: EditableInfo, cells: seq<Option<V>>, shown: Display<V>, key: map<string, string>,
                   coerce: Coercion<V>, row: Row<V>, k: string)
    requires |cells| == |editable.columns| && IsRowKey(editable, cells, shown, key) && ReadFrom(editable, cells, row) && k in key
    ensures k in row && (ColumnEquals(row, k, coerce, key[k]) <==> ComesBack(coerce, shown, k, row[k]))
  {
    var j :| 0 <= j < |cells| && editable.columns[j] == k && key[k] == KeyText(shown, k, cells[j]);
  }

  /** The key of a result row addresses the stored row it was read from, and no other, if and
      only if the text of each of its cells comes back as the value that is stored. */
  lemma KeyFindsItsRow<V>(rows: seq<Row<V>>, editable: EditableInfo, cells: seq<Option<V>>, shown: Display<V>,
                          key: map<string, string>, coerce: Coercion<V>, i: nat)
    requires |cells| == |editable.columns| && IsRowKey(editable, cells, shown, key)
    requires KeyUnique(rows, key.Keys) && i < |rows| && ReadFrom(editable, cells, rows[i])
    ensures forall k :: k in key ==> k in rows[i]
    ensures (forall j :: 0 <= j < |rows| ==> (KeyMatches(key, coerce, rows[j]) <==> j == i))
       <==> forall k :: k in key ==> ComesBack(coerce, shown, k, rows[i][k])
  {
    forall k | k in key
      ensures k in rows[i] && (ColumnEquals(rows[i], k, coerce, key[k]) <==> ComesBack(coerce, shown, k, rows[i][k]))
    {
      KeyCell(editable, cells, shown, key, coerce, rows[i], k);
    }
    if KeyMatches(key, coerce, rows[i]) {
      forall j | 0 <= j < |rows| && KeyMatches(key, coerce, rows[j]) ensures j == i {
        AtMostOne(rows, key.Keys, key, coerce, i, j);
      }
    }
  }

  // ------------------------------------------------------------------- edits end to end

  /** The key cells of a result row were read from a row of the table. */
  ghost predicate RowShown<V>(metas: seq<ColumnMeta>, oid: nat, info: TableInfo, cells: seq<Option<V>>, row: Row<V>)
    requires |cells| == |metas|
  {
    forall c :: 0 <= c < |metas| && Traces(metas[c], oid, info) && info.names[metas[c].attnum] in info.pk ==>
      info.names[metas[c].attnum] in row && cells[c] == row[info.names[metas[c].attnum]]
  }

  /** The text of each key column of a row is read back as what is stored. */
  ghost predicate KeyComesBack<V>(info: TableInfo, coerce: Coercion<V>, shown: Display<V>, row: Row<V>) {
    forall k :: k in info.pk && k in row ==> ComesBack(coerce, shown, k, row[k])
  }

  /** The row that a result row shows is the only one that its key matches. */
  lemma OnlyRowShown<V>(rows: seq<Row<V>>, metas: seq<ColumnMeta>, oid: nat, info: TableInfo, e: EditableInfo, cells: seq<Option<V>>,
                        shown: Display<V>, key: map<string, string>, coerce: Coercion<V>, i: nat)
    requires |cells| == |metas| && Describes(e, metas, oid, info) && "" !in info.pk && IsRowKey(e, cells, shown, key)
    requires KeyUnique(rows, set k | k in info.pk) && i < |rows|
    requires RowShown(metas, oid, info, cells, rows[i]) && KeyComesBack(info, coerce, shown, rows[i])
    ensures forall j :: 0 <= j < |rows| ==> (KeyMatches(key, coerce, rows[j]) <==> j == i)
  {
    hide KeyUnique, KeyMatches, ComesBack;
    assert key.Keys == set k | k in info.pk;
    assert ReadFrom(e, cells, rows[i]);
    KeyFindsItsRow(rows, e, cells, shown, key, coerce, i);
  }

  /** Only the table of the result has changed, and of it only the row that was shown: one column
      has been set. */
  ghost predicate CellEdited<V>(before: map<TableName, seq<Row<V>>>, after: map<TableName, seq<Row<V>>>, keys: map<TableName, set<string>>,
                                metas: seq<ColumnMeta>, oid: nat, info: TableInfo, cells: seq<Option<V>>, shown: Display<V>,
                                coerce: Coercion<V>, column: string, value: Option<string>)
    requires |cells| == |metas|
  {
    var t := (info.schema, info.table);
    && OnlyAddressed(before, after, t)
    && (t in keys && keys[t] == (set k | k in info.pk) ==>
      forall i :: 0 <= i < |before[t]| && RowShown(metas, oid, info, cells, before[t][i]) && KeyComesBack(info, coerce, shown, before[t][i]) ==>
        after[t] == before[t][i := before[t][i][column := if value == None then None else coerce(column, value.value)]])
  }

  /** Only the table of the result has changed, and it has lost only the row that was shown. */
  ghost predicate RowRemoved<V>(before: map<TableName, seq<Row<V>>>, after: map<TableName, seq<Row<V>>>, keys: map<TableName, set<string>>,
                                metas: seq<ColumnMeta>, oid: nat, info: TableInfo, cells: seq<Option<V>>, shown: Display<V>,
                                coerce: Coercion<V>)
    requires |cells| == |metas|
  {
    var t := (info.schema, info.table);
    && t in before && t in after && after == before[t := after[t]]
    && (t in keys && keys[t] == (set k | k in info.pk) ==>
      forall i :: 0 <= i < |before[t]| && RowShown(metas, oid, info, cells, before[t][i]) && KeyComesBack(info, coerce, shown, before[t][i]) ==>
        after[t] == before[t][..i] + before[t][i + 1..])
  }

  lemma CellIsEdited<V>(before: map<TableName, seq<Row<V>>>, db: Database<V>, metas: seq<ColumnMeta>, oid: nat, info: TableInfo,
                        e: EditableInfo, cells: seq<Option<V>>, shown: Display<V>, m: Mutation)
    requires |cells| == |metas| && Describes(e, metas, oid, info) && "" !in info.pk && IsRowKey(e, cells, shown, m.key)
    requires m.schema == e.schema && m.table == e.table && (m.value.Some? ==> db.coerce(m.column, m.value.value).Some?)
    requires OnlyAddressed(before, db.tables, (m.schema, m.table))
    requires forall t :: t in before && t in db.keys ==> KeyUnique(before[t], db.keys[t])
    requires AddressedRowsSet(before[(m.schema, m.table)], db.tables[(m.schema, m.table)], m, db.coerce)
    ensures CellEdited(before, db.tables, db.keys, metas, oid, info, cells, shown, db.coerce, m.column, m.value)
  {
    hide KeyUnique, KeyMatches, RowShown, KeyComesBack, IsRowKey;
    var t := (info.schema, info.table);
    if t in db.keys && db.keys[t] == set k | k in info.pk {
      forall i | 0 <= i < |before[t]| && RowShown(metas, oid, info, cells, before[t][i]) && KeyComesBack(info, db.coerce, shown, before[t][i])
        ensures db.tables[t] == before[t][i := before[t][i][m.column := if m.value == None then None else db.coerce(m.column, m.value.value)]]
      {
        OnlyRowShown(before[t], metas, oid, info, e, cells, shown, m.key, db.coerce, i);
      }
    }
  }

  lemma {:induction false} NoneAddressed<V>(rows: seq<Row<V>>, key: map<string, string>, coerce: Coercion<V>)
    requires forall j :: 0 <= j < |rows| ==> !KeyMatches(key, coerce, rows[j])
    ensures NotAddressed(rows, key, coerce) == rows
  {
    if rows == [] {
    } else {
      NoneAddressed(rows[..|rows| - 1], key, coerce);
    }
  }

  lemma {:induction false} AllButOne<V>(rows: seq<Row<V>>, key: map<string, string>, coerce: Coercion<V>, i: nat)
    requires i < |rows| && forall j :: 0 <= j < |rows| ==> (KeyMatches(key, coerce, rows[j]) <==> j == i)
    ensures NotAddressed(rows, key, coerce) == rows[..i] + rows[i + 1..]
  {
    hide KeyMatches;
    var front := rows[..|rows| - 1];
    if i == |rows| - 1 {
      NoneAddressed(front, key, coerce);
    } else {
      AllButOne(front, key, coerce, i);
      assert front[..i] + front[i + 1..] + [rows[|rows| - 1]] == rows[..i] + rows[i + 1..];
    }
  }

  lemma RowIsRemoved<V>(before: map<TableName, seq<Row<V>>>, db: Database<V>, metas: seq<ColumnMeta>, oid: nat, info: TableInfo,
                        e: EditableInfo, cells: seq<Option<V>>, shown: Display<V>, m: Mutation)
    requires |cells| == |metas| && Describes(e, metas, oid, info) && "" !in info.pk && IsRowKey(e, cells, shown, m.key)
    requires m.schema == e.schema && m.table == e.table && WithoutAddressed(before, db.tables, m, db.coerce)
    requires forall t :: t in before && t in db.keys ==> KeyUnique(before[t], db.keys[t])
    ensures RowRemoved(before, db.tables, db.keys, metas, oid, info, cells, shown, db.coerce)
  {
    hide KeyUnique, KeyMatches, RowShown, KeyComesBack, IsRowKey, NotAddressed;
    var t := (info.schema, info.table);
    if t in db.keys && db.keys[t] == set k | k in info.pk {
      forall i | 0 <= i < |before[t]| && RowShown(metas, oid, info, cells, before[t][i]) && KeyComesBack(info, db.coerce, shown, before[t][i])
        ensures db.tables[t] == before[t][..i] + before[t][i + 1..]
      {
        OnlyRowShown(before[t], metas, oid, info, e, cells, shown, m.key, db.coerce, i);
        AllButOne(before[t], m.key, db.coerce, i);
      }
    }
  }

  /** An edit of a cell of an editable result, from the source of its columns to the database. */
  method EditCell<V(==)>(db: Database<V>, metas: seq<ColumnMeta>, catalog: map<nat, TableInfo>, cells: seq<Option<V>>,
                         shown: Display<V>, j: nat, value: Option<string>) returns (ok: bool)
    requires db.Valid() && |cells| == |metas| && j < |metas|
    requires forall oid :: oid in catalog ==> "" !in catalog[oid].pk
    modifies db
    ensures db.Valid()
    ensures !ok ==> db.tables == old(db.tables)
    ensures ok ==> exists oid ::
      && IsEditable(metas, catalog, oid) && Traces(metas[j], oid, catalog[oid])
      && CellEdited(old(db.tables), db.tables, db.keys, metas, oid, catalog[oid], cells, shown, db.coerce,
                    catalog[oid].names[metas[j].attnum], value)
  {
    var e := Editable(metas, catalog);
    if e == None {
      return false;
    }
    ghost var oid :| IsEditable(metas, catalog, oid) && Describes(e.value, metas, oid, catalog[oid]);
    var key := RowKey(e.value, cells, shown);
    if key == None || e.value.columns[j] == "" {
      return false;
    }
    ghost var before := db.tables;
    var m := Mutation(e.value.schema, e.value.table, key.value, e.value.columns[j], value);
    ok := UpdateRow(db, m);
    if ok {
      CellIsEdited(before, db, metas, oid, catalog[oid], e.value, cells, shown, m);
    }
  }

  /** Deleting the row of an editable result. */
  method RemoveRow<V(==)>(db: Database<V>, metas: seq<ColumnMeta>, catalog: map<nat, TableInfo>, cells: seq<Option<V>>,
                          shown: Display<V>) returns (ok: bool)
    requires db.Valid() && |cells| == |metas|
    requires forall oid :: oid in catalog ==> "" !in catalog[oid].pk
    modifies db
    ensures db.Valid()
    ensures !ok ==> db.tables == old(db.tables)
    ensures ok ==> exists oid ::
      IsEditable(metas, catalog, oid) && RowRemoved(old(db.tables), db.tables, db.keys, metas, oid, catalog[oid], cells, shown, db.coerce)
  {
    var e := Editable(metas, catalog);
    if e == None {
      return false;
    }
    ghost var oid :| IsEditable(metas, catalog, oid) && Describes(e.value, metas, oid, catalog[oid]);
    var key := RowKey(e.value, cells, shown);
    if key == None {
      return false;
    }
    ghost var before := db.tables;
    var m := Mutation(e.value.schema, e.value.table, key.value, "", None);
    ok := DeleteRow(db, m);
    if ok {
      RowIsRemoved(before, db, metas, oid, catalog[oid], e.value, cells, shown, m);
    }
  }

  // ------------------------------------------------------------- rows of no stored row

  /** A result row that an outer join made up: its key cells are NULL. */
  predicate NullExtended<V(==)>(editable: EditableInfo, cells: seq<Option<V>>)
    requires |cells| == |editable.columns|
  {
    forall j :: 0 <= j < |cells| && editable.columns[j] in editable.primaryKey ==> cells[j] == None
  }

  /** The key of such a row is made of empty texts: it addresses the stored rows all of whose key
      columns read the empty text as their value, of which there is at most one. */
  lemma NullExtendedKey<V>(rows: seq<Row<V>>, editable: EditableInfo, cells: seq<Option<V>>, shown: Display<V>,
                           key: map<string, string>, coerce: Coercion<V>)
    requires |cells| == |editable.columns| && IsRowKey(editable, cells, shown, key) && NullExtended(editable, cells)
    requires KeyUnique(rows, key.Keys)
    ensures forall i :: 0 <= i < |rows| ==>
      (KeyMatches(key, coerce, rows[i]) <==> forall k :: k in key ==> ColumnEquals(rows[i], k, coerce, ""))
    ensures forall i, j :: 0 <= i < |rows| && 0 <= j < |rows| && KeyMatches(key, coerce, rows[i]) && KeyMatches(key, coerce, rows[j]) ==> i == j
  {
    forall k | k in key ensures key[k] == "" {
      var j :| 0 <= j < |cells| && editable.columns[j] == k && key[k] == KeyText(shown, k, cells[j]);
    }
    forall i, j | 0 <= i < |rows| && 0 <= j < |rows| && KeyMatches(key, coerce, rows[i]) && KeyMatches(key, coerce, rows[j]) ensures i == j {
      AtMostOne(rows, key.Keys, key, coerce, i, j);
    }
  }

  function IdKey(text: string): map<string, string> {
    map["id" := text]
  }

  const ID_TABLE := EditableInfo("public", "t", ["id"], ["id"])

  /** A key cell that an outer join left NULL. */
  const NO_CELL: seq<Option<string>> := [None]

  /** How a text column reads text. */
  function ReadText(column: string, text: string): Option<string> {
    Some(text)
  }

  /** So an edit of a row that is in no table is made to the stored row whose text key is empty. */
  lemma EmptyKeyAddressed(shown: Display<string>)
    ensures NullExtended(ID_TABLE, NO_CELL) && IsRowKey(ID_TABLE, NO_CELL, shown, IdKey(""))
    ensures KeyMatches(IdKey(""), ReadText, map["id" := Some("")])
  {
    assert "id" in ID_TABLE.primaryKey && ID_TABLE.columns[0] == "id";
    assert IdKey("")["id"] == KeyText(shown, "id", NO_CELL[0]);
  }

  // ------------------------------------------------------------------ large numbers

  const TWO_TO_THE_53 := 9007199254740992

  /** An int8 as a JavaScript number: every second one past 2^53 is not, and goes to its
      neighbour with the even significand. */
  function ToNumber(n: int): int {
    if -TWO_TO_THE_53 <= n <= TWO_TO_THE_53 || n % 2 == 0 then n else if n % 4 == 1 then n - 1 else n + 1
  }

  /** `String` of a number, up to 2^54 either way. */
  ghost predicate PrintsNumbers(shown: Display<int>) {
    forall column, n :: -2 * TWO_TO_THE_53 <= n <= 2 * TWO_TO_THE_53 ==> shown(column, n) == Decimal(ToNumber(n))
  }

  /** How int8 reads text. */
  function ReadInt8(column: string, text: string): Option<int> {
    match ReadDecimal(text)
    case None => None
    case Some((n, rest)) => if rest == "" then Some(n) else None
  }

  /** An int8 key of a row comes back if and only if it is a JavaScript number. */
  lemma Int8ComesBack(shown: Display<int>, column: string, n: int)
    requires PrintsNumbers(shown) && -2 * TWO_TO_THE_53 <= n <= 2 * TWO_TO_THE_53
    ensures ReadInt8(column, shown(column, n)) == Some(ToNumber(n))
    ensures ComesBack(ReadInt8, shown, column, Some(n)) <==> -TWO_TO_THE_53 <= n <= TWO_TO_THE_53 || n % 2 == 0
  {
    assert Decimal(ToNumber(n)) + "" == Decimal(ToNumber(n));
    ReadsDecimalBack(ToNumber(n), "");
  }

  function IdRow(n: int): Row<int> {
    map["id" := Some(n)]
  }

  lemma IdMatches(text: string, n: int)
    ensures KeyMatches(IdKey(text), ReadInt8, IdRow(n)) <==> ReadInt8("id", text) == Some(n)
  {
    hide ReadInt8;
    assert "id" in IdKey(text);
  }

  lemma IdsUnique(a: int, b: int)
    requires a != b
    ensures KeyUnique([IdRow(a), IdRow(b)], {"id"})
  {
    assert "id" in {"id"} && !AgreeOn(IdRow(a), IdRow(b), {"id"});
  }

  lemma IdKeyOf(shown: Display<int>, n: int)
    ensures IsRowKey(ID_TABLE, [Some(n)], shown, IdKey(shown("id", n)))
  {
    var key := IdKey(shown("id", n));
    assert "id" in ID_TABLE.primaryKey && ID_TABLE.columns[0] == "id";
    assert key["id"] == KeyText(shown, "id", [Some(n)][0]);
  }

  /** So the key of row 9007199254740993 addresses row 9007199254740992 instead. */
  lemma NeighbourAddressed(shown: Display<int>)
    requires PrintsNumbers(shown)
    ensures var n := TWO_TO_THE_53; var key := IdKey(shown("id", n + 1));
      && IsRowKey(ID_TABLE, [Some(n + 1)], shown, key) && KeyUnique([IdRow(n + 1), IdRow(n)], {"id"})
      && !KeyMatches(key, ReadInt8, IdRow(n + 1)) && KeyMatches(key, ReadInt8, IdRow(n))
  {
    var n := TWO_TO_THE_53;
    var text := shown("id", n + 1);
    Int8ComesBack(shown, "id", n + 1);
    hide IsRowKey, KeyUnique, KeyMatches, ReadInt8, PrintsNumbers, IdKey, IdRow;
    IdKeyOf(shown, n + 1);
    IdsUnique(n + 1, n);
    IdMatches(text, n + 1);
    IdMatches(text, n);
  }
}
