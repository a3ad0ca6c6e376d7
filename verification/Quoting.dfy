/** How the postgres service quotes identifiers (internal/service/postgres_db.go), and the
    reader that undoes it: the SQL rule for delimited identifiers. */
module Quoting {
  import opened Text

  // ---------------------------------------------------------------- identifiers

  function DoubleQuotes(s: string): string {
    if s == "" then "" else (if s[0] == '"' then "\"\"" else [s[0]]) + DoubleQuotes(s[1..])
  }

  function QuoteIdent(s: string): string {
    "\"" + DoubleQuotes(s) + "\""
  }

  /** The body of a delimited identifier: up to the first quote that is not doubled. */
  function ReadIdentBody(s: string): (r: Option<(string, string)>)
    ensures r.Some? ==> |r.value.1| < |s|
  {
    if s == "" then None
    else if s[0] != '"' then
      match ReadIdentBody(s[1..])
      case None => None
      case Some((body, rest)) => Some(([s[0]] + body, rest))
    else if |s| >= 2 && s[1] == '"' then
      match ReadIdentBody(s[2..])
      case None => None
      case Some((body, rest)) => Some(("\"" + body, rest))
    else Some(("", s[1..]))
  }

  /** An SQL delimited identifier at the front of `s`, with what follows it. */
  function ReadIdent(s: string): (r: Option<(string, string)>)
    ensures r.Some? ==> |r.value.1| < |s|
  {
    if s == "" || s[0] != '"' then None else ReadIdentBody(s[1..])
  }

  lemma {:induction false} ReadIdentBodyOfDoubled(s: string, rest: string)
    requires rest == "" || rest[0] != '"'
    ensures ReadIdentBody(DoubleQuotes(s) + "\"" + rest) == Some((s, rest))
  {
    var text := DoubleQuotes(s) + "\"" + rest;
    if s == "" {
      assert text == "\"" + rest;
      assert text[1..] == rest;
    } else {
      ReadIdentBodyOfDoubled(s[1..], rest);
      var tail := DoubleQuotes(s[1..]) + "\"" + rest;
      if s[0] == '"' {
        assert text == "\"\"" + tail;
        assert text[2..] == tail;
      } else {
        assert text == [s[0]] + tail;
        assert text[1..] == tail;
      }
      assert s == [s[0]] + s[1..];
    }
  }

  /** A quoted identifier reads back as the name it was made from, whatever the name
      holds, as long as another quote does not follow it directly. */
  lemma QuoteIdentLossless(s: string, rest: string)
    requires rest == "" || rest[0] != '"'
    ensures ReadIdent(QuoteIdent(s) + rest) == Some((s, rest))
  {
    ReadIdentBodyOfDoubled(s, rest);
    assert (QuoteIdent(s) + rest)[1..] == DoubleQuotes(s) + "\"" + rest;
  }

  lemma QuoteIdentInjective(s: string, t: string)
    requires QuoteIdent(s) == QuoteIdent(t)
    ensures s == t
  {
    QuoteIdentLossless(s, "");
    QuoteIdentLossless(t, "");
    assert QuoteIdent(s) + "" == QuoteIdent(t) + "";
  }

  /** Quoting adds no character but double quotes. */
  lemma {:induction false} DoubleQuotesKeep(s: string, c: char)
    requires c != '"'
    ensures c in DoubleQuotes(s) <==> c in s
  {
    if s == "" {
    } else {
      DoubleQuotesKeep(s[1..], c);
      assert s == [s[0]] + s[1..];
    }
  }

  /** A quoted name is the only text that reads as the name. */
  lemma {:induction false} ReadIdentBodyOnly(s: string)
    requires ReadIdentBody(s).Some?
    ensures var (name, rest) := ReadIdentBody(s).value; s == DoubleQuotes(name) + "\"" + rest
  {
    if s[0] == '"' && (|s| < 2 || s[1] != '"') {
      assert s == "\"" + s[1..];
    } else if s[0] != '"' {
      ReadIdentBodyOnly(s[1..]);
      var (body, rest) := ReadIdentBody(s[1..]).value;
      assert s == [s[0]] + s[1..] && ([s[0]] + body)[1..] == body;
      Regroup4([s[0]], DoubleQuotes(body), "\"", rest);
    } else {
      ReadIdentBodyOnly(s[2..]);
      var (body, rest) := ReadIdentBody(s[2..]).value;
      assert s == "\"\"" + s[2..] && ("\"" + body)[1..] == body;
      Regroup4("\"\"", DoubleQuotes(body), "\"", rest);
    }
  }

  lemma ReadIdentOnly(s: string)
    requires ReadIdent(s).Some?
    ensures var (name, rest) := ReadIdent(s).value; s == QuoteIdent(name) + rest
  {
    ReadIdentBodyOnly(s[1..]);
    var (name, rest) := ReadIdent(s).value;
    assert s == "\"" + s[1..];
    Regroup4("\"", DoubleQuotes(name), "\"", rest);
  }

  // ------------------------------------------------------------ qualified names

  function Qualified(schema: string, name: string): string {
    QuoteIdent(schema) + "." + QuoteIdent(name)
  }

  /** `"schema"."table"` at the front of a text. */
  function ReadQualified(s: string): Option<((string, string), string)> {
    match ReadIdent(s)
    case None => None
    case Some((schema, rest)) =>
      match DropPrefix(".", rest)
      case None => None
      case Some(tail) =>
        match ReadIdent(tail)
        case None => None
        case Some((table, after)) => Some(((schema, table), after))
  }

  lemma ReadsQualifiedBack(schema: string, table: string, rest: string)
    requires rest == "" || rest[0] != '"'
    ensures ReadQualified(Qualified(schema, table) + rest) == Some(((schema, table), rest))
  {
    hide ReadIdent, QuoteIdent;
    var tail := QuoteIdent(table) + rest;
    assert Qualified(schema, table) + rest == QuoteIdent(schema) + ("." + tail);
    QuoteIdentLossless(schema, "." + tail);
    assert ("." + tail)[1..] == tail;
    QuoteIdentLossless(table, rest);
  }

  lemma ReadQualifiedOnly(s: string)
    requires ReadQualified(s).Some?
    ensures var ((schema, name), rest) := ReadQualified(s).value; s == Qualified(schema, name) + rest
  {
    hide ReadIdent, QuoteIdent;
    var (schema, r1) := ReadIdent(s).value;
    ReadIdentOnly(s);
    var r2 := DropPrefix(".", r1).value;
    assert r1 == "." + r2;
    ReadIdentOnly(r2);
    var (name, r3) := ReadIdent(r2).value;
    assert s == QuoteIdent(schema) + ("." + (QuoteIdent(name) + r3));
  }

  lemma QualifiedKeeps(schema: string, name: string, c: char)
    requires c != '"' && c != '.'
    ensures c in Qualified(schema, name) <==> c in schema || c in name
  {
    DoubleQuotesKeep(schema, c);
    DoubleQuotesKeep(name, c);
    assert Qualified(schema, name) == "\"" + DoubleQuotes(schema) + "\".\"" + DoubleQuotes(name) + "\"";
  }

  // ------------------------------------------------------------------- literals

  /** How a text would have to be written between single quotes. */
  function DoubleSingles(s: string): string {
    if s == "" then "" else (if s[0] == '\'' then "''" else [s[0]]) + DoubleSingles(s[1..])
  }

  /** The body of an SQL string literal: up to the first single quote that is not doubled. */
  function ReadLiteralBody(s: string): (r: Option<(string, string)>)
    ensures r.Some? ==> |r.value.1| < |s|
  {
    if s == "" then None
    else if s[0] != '\'' then
      match ReadLiteralBody(s[1..])
      case None => None
      case Some((body, rest)) => Some(([s[0]] + body, rest))
    else if |s| >= 2 && s[1] == '\'' then
      match ReadLiteralBody(s[2..])
      case None => None
      case Some((body, rest)) => Some(("'" + body, rest))
    else Some(("", s[1..]))
  }

  lemma {:induction false} ReadLiteralBodyOfDoubled(s: string, rest: string)
    requires rest == "" || rest[0] != '\''
    ensures ReadLiteralBody(DoubleSingles(s) + "'" + rest) == Some((s, rest))
  {
    var text := DoubleSingles(s) + "'" + rest;
    if s == "" {
      assert text == "'" + rest;
      assert text[1..] == rest;
    } else {
      ReadLiteralBodyOfDoubled(s[1..], rest);
      var tail := DoubleSingles(s[1..]) + "'" + rest;
      if s[0] == '\'' {
        assert text == "''" + tail;
        assert text[2..] == tail;
      } else {
        assert text == [s[0]] + tail;
        assert text[1..] == tail;
      }
      assert s == [s[0]] + s[1..];
    }
  }

  lemma {:induction false} ReadLiteralBodyOnly(s: string)
    requires ReadLiteralBody(s).Some?
    ensures var (body, rest) := ReadLiteralBody(s).value; s == DoubleSingles(body) + "'" + rest
  {
    if s[0] == '\'' && (|s| < 2 || s[1] != '\'') {
      assert s == "'" + s[1..];
    } else if s[0] != '\'' {
      ReadLiteralBodyOnly(s[1..]);
      var (body, rest) := ReadLiteralBody(s[1..]).value;
      assert s == [s[0]] + s[1..] && ([s[0]] + body)[1..] == body;
      Regroup4([s[0]], DoubleSingles(body), "'", rest);
    } else {
      ReadLiteralBodyOnly(s[2..]);
      var (body, rest) := ReadLiteralBody(s[2..]).value;
      assert s == "''" + s[2..] && ("'" + body)[1..] == body;
      Regroup4("''", DoubleSingles(body), "'", rest);
    }
  }

  /** Only a text without single quotes is written as it is. */
  lemma {:induction false} DoubleSinglesGrow(s: string)
    ensures if '\'' in s then |DoubleSingles(s)| > |s| else DoubleSingles(s) == s
  {
    if s == "" {
    } else {
      DoubleSinglesGrow(s[1..]);
      assert s == [s[0]] + s[1..];
    }
  }

  lemma LastQuote(s: string, rest: string, written: string, after: string)
    requires s + "'" + rest == written + "'" + after && '\'' !in rest
    ensures |written| <= |s|
  {
    var whole := s + "'" + rest;
    assert whole[|written|] == '\'';
    assert forall k :: |s| < k < |whole| ==> whole[k] == rest[k - |s| - 1];
  }

  /** A text with a single quote, put between single quotes as it is, never reads as itself:
      what is read, if anything, is shorter. */
  lemma UnescapedLiteral(s: string, rest: string)
    requires '\'' !in rest
    ensures var r := ReadLiteralBody(s + "'" + rest);
      if '\'' in s then r.Some? ==> |r.value.0| < |s| else r == Some((s, rest))
  {
    var whole := s + "'" + rest;
    var r := ReadLiteralBody(whole);
    DoubleSinglesGrow(s);
    if '\'' !in s {
      ReadLiteralBodyOfDoubled(s, rest);
    } else if r.Some? {
      var (body, after) := r.value;
      ReadLiteralBodyOnly(whole);
      DoubleSinglesGrow(body);
      LastQuote(s, rest, DoubleSingles(body), after);
      assert whole[..|s|] == s && whole[..|DoubleSingles(body)|] == DoubleSingles(body);
    }
  }
}
