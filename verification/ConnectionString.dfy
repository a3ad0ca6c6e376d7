/** Connection strings of the discrete form (internal/service/postgres_db.go), and the reader
    that undoes them: the rules of the section "Keyword/Value Connection Strings" in the libpq
    chapter of the PostgreSQL documentation. */
module ConnectionString {
  import opened Text

  /** One pass over the value, as `strings.NewReplacer` does. */
  function EscapeDSN(v: string): string {
    if v == "" then ""
    else (if v[0] == '\\' then "\\\\" else if v[0] == '\'' then "\\'" else [v[0]]) + EscapeDSN(v[1..])
  }

  function QuoteDSN(v: string): string {
    "'" + EscapeDSN(v) + "'"
  }

  /** The fields of a profile that describes its connection field by field. An empty
      password or schema means "not given". */
  datatype Discrete = Discrete(host: string, port: int, user: string, database: string,
                               password: string, schema: string)

  function Body(x: Setting): string {
    if x.bare then x.value else QuoteDSN(x.value)
  }

  function SettingText(x: Setting): string {
    x.key + "=" + Body(x)
  }

  function Texts(xs: seq<Setting>): seq<string> {
    seq(|xs|, i requires 0 <= i < |xs| => SettingText(xs[i]))
  }

  function Required(f: Discrete): seq<Setting> {
    [Setting("host", f.host, false), Setting("port", Decimal(f.port), true),
     Setting("user", f.user, false), Setting("dbname", f.database, false)]
  }

  function Optional(key: string, value: string): seq<Setting> {
    if value != "" then [Setting(key, value, false)] else []
  }

  function Settings(f: Discrete): seq<Setting> {
    Required(f) + Optional("password", f.password) + Optional("search_path", f.schema)
  }

  lemma TextsAppend(xs: seq<Setting>, x: Setting)
    ensures Texts(xs + [x]) == Texts(xs) + [SettingText(x)]
  {}

  method ConnString(f: Discrete) returns (s: string)
    ensures s == Join(Texts(Settings(f)), " ")
  {
    var parts := ["host=" + QuoteDSN(f.host), "port=" + Decimal(f.port),
                  "user=" + QuoteDSN(f.user), "dbname=" + QuoteDSN(f.database)];
    ghost var xs := Required(f);
    assert "host" + "=" == "host=" && "port" + "=" == "port=" && "user" + "=" == "user=" && "dbname" + "=" == "dbname=";
    assert parts == Texts(xs);
    if f.password != "" {
      parts := parts + ["password=" + QuoteDSN(f.password)];
      assert "password" + "=" == "password=";
      TextsAppend(xs, Setting("password", f.password, false));
      xs := xs + [Setting("password", f.password, false)];
    }
    if f.schema != "" {
      parts := parts + ["search_path=" + QuoteDSN(f.schema)];
      assert "search_path" + "=" == "search_path=";
      TextsAppend(xs, Setting("search_path", f.schema, false));
      xs := xs + [Setting("search_path", f.schema, false)];
    }
    assert xs == Settings(f);
    s := Join(parts, " ");
  }

  /** A setting as a connection string holds it: bare when `bare`, quoted otherwise. */
  datatype Setting = Setting(key: string, value: string, bare: bool)

  // The reader. White space separates settings and may surround the equal sign; a value
  // is quoted or runs to the next white space; a backslash takes the next character as is.

  function SkipBlank(s: string): (r: string)
    ensures |r| <= |s|
  {
    if s != "" && IsSpace(s[0]) then SkipBlank(s[1..]) else s
  }

  function ReadKey(s: string): (r: (string, string))
    ensures |r.0| + |r.1| == |s|
  {
    if s == "" || s[0] == '=' || IsSpace(s[0]) then ("", s)
    else var (k, rest) := ReadKey(s[1..]); ([s[0]] + k, rest)
  }

  function ReadQuoted(s: string): (r: Option<(string, string)>)
    ensures r.Some? ==> |r.value.1| < |s|
  {
    if s == "" then None
    else if s[0] == '\'' then Some(("", s[1..]))
    else if s[0] == '\\' then
      if |s| == 1 then None
      else match ReadQuoted(s[2..])
        case None => None
        case Some((v, rest)) => Some(([s[1]] + v, rest))
    else match ReadQuoted(s[1..])
      case None => None
      case Some((v, rest)) => Some(([s[0]] + v, rest))
  }

  function ReadBare(s: string): (r: Option<(string, string)>)
    ensures r.Some? ==> |r.value.1| <= |s|
  {
    if s == "" || IsSpace(s[0]) then Some(("", s))
    else if s[0] == '\\' then
      if |s| == 1 then None
      else match ReadBare(s[2..])
        case None => None
        case Some((v, rest)) => Some(([s[1]] + v, rest))
    else match ReadBare(s[1..])
      case None => None
      case Some((v, rest)) => Some(([s[0]] + v, rest))
  }

  function ReadValue(v: string): (r: Option<(string, string)>)
    ensures r.Some? ==> |r.value.1| <= |v|
  {
    if v != "" && v[0] == '\'' then ReadQuoted(v[1..]) else ReadBare(v)
  }

  /** One setting at the front of `s`, with what follows it. */
  function ReadSetting(s: string): (r: Option<((string, string), string)>)
    ensures r.Some? ==> |r.value.1| < |s|
  {
    var (key, afterKey) := ReadKey(s);
    var eq := SkipBlank(afterKey);
    if key == "" || eq == "" || eq[0] != '=' then None else
      match ReadValue(SkipBlank(eq[1..]))
      case None => None
      case Some((value, rest)) => Some(((key, value), rest))
  }

  function ReadSettings(s: string): Option<seq<(string, string)>>
    decreases |s|
  {
    if SkipBlank(s) == "" then Some([]) else
      match ReadSetting(SkipBlank(s))
      case None => None
      case Some((x, rest)) =>
        match ReadSettings(rest)
        case None => None
        case Some(more) => Some([x] + more)
  }

  lemma {:induction false} ReadQuotedOfEscaped(v: string, rest: string)
    ensures ReadQuoted(EscapeDSN(v) + "'" + rest) == Some((v, rest))
  {
    var text := EscapeDSN(v) + "'" + rest;
    if v == "" {
      assert text == "'" + rest;
      assert text[1..] == rest;
    } else {
      ReadQuotedOfEscaped(v[1..], rest);
      var tail := EscapeDSN(v[1..]) + "'" + rest;
      if v[0] == '\\' || v[0] == '\'' {
        assert text == ['\\', v[0]] + tail;
        assert text[2..] == tail;
      } else {
        assert text == [v[0]] + tail;
        assert text[1..] == tail;
      }
      assert v == [v[0]] + v[1..];
    }
  }

  ghost predicate Plain(s: string) {
    forall i :: 0 <= i < |s| ==> !IsSpace(s[i]) && s[i] != '\\' && s[i] != '\'' && s[i] != '='
  }

  lemma {:induction false} ReadBareOfPlain(v: string, rest: string)
    requires Plain(v) && (rest == "" || IsSpace(rest[0]))
    ensures ReadBare(v + rest) == Some((v, rest))
  {
    if v == "" {
      assert v + rest == rest;
    } else {
      assert (v + rest)[1..] == v[1..] + rest;
      ReadBareOfPlain(v[1..], rest);
      assert v == [v[0]] + v[1..];
    }
  }

  lemma {:induction false} ReadKeyOfPlain(k: string, rest: string)
    requires Plain(k) && rest != "" && rest[0] == '='
    ensures ReadKey(k + rest) == (k, rest)
  {
    if k == "" {
      assert k + rest == rest;
    } else {
      assert (k + rest)[1..] == k[1..] + rest;
      ReadKeyOfPlain(k[1..], rest);
      assert k == [k[0]] + k[1..];
    }
  }

  ghost predicate Readable(x: Setting) {
    Plain(x.key) && x.key != "" && (x.bare ==> Plain(x.value) && x.value != "")
  }

  function Pairs(xs: seq<Setting>): seq<(string, string)> {
    seq(|xs|, i requires 0 <= i < |xs| => (xs[i].key, xs[i].value))
  }

  lemma ReadValueOf(x: Setting, rest: string)
    requires Readable(x) && (rest == "" || IsSpace(rest[0]))
    ensures SkipBlank(Body(x) + rest) == Body(x) + rest && ReadValue(Body(x) + rest) == Some((x.value, rest))
  {
    if x.bare {
      assert (x.value + rest)[0] == x.value[0];
      ReadBareOfPlain(x.value, rest);
    } else {
      var quoted := QuoteDSN(x.value) + rest;
      var inner := EscapeDSN(x.value) + "'" + rest;
      assert quoted == "'" + inner;
      assert quoted[1..] == inner;
      ReadQuotedOfEscaped(x.value, rest);
    }
  }

  lemma SettingTextParts(x: Setting, rest: string)
    ensures SettingText(x) + rest == x.key + ("=" + (Body(x) + rest))
    ensures ("=" + (Body(x) + rest))[1..] == Body(x) + rest
  {}

  lemma ReadSettingOf(x: Setting, rest: string)
    requires Readable(x) && (rest == "" || IsSpace(rest[0]))
    ensures ReadSetting(SettingText(x) + rest) == Some(((x.key, x.value), rest))
  {
    var s, eq := SettingText(x) + rest, "=" + (Body(x) + rest);
    SettingTextParts(x, rest);
    assert ReadKey(s) == (x.key, eq) by { ReadKeyOfPlain(x.key, eq); }
    assert SkipBlank(eq) == eq && eq[0] == '=';
    var tail := eq[1..];
    assert SkipBlank(tail) == tail && ReadValue(tail) == Some((x.value, rest)) by { ReadValueOf(x, rest); }
  }

  lemma ReadSettingsStep(x: Setting, rest: string)
    requires Readable(x) && (rest == "" || IsSpace(rest[0]))
    requires ReadSettings(rest).Some?
    ensures ReadSettings(SettingText(x) + rest) == Some([(x.key, x.value)] + ReadSettings(rest).value)
  {
    ReadSettingOf(x, rest);
    assert (SettingText(x) + rest)[0] == x.key[0];
  }

  lemma ReadSettingsAfterBlank(rest: string)
    ensures ReadSettings(" " + rest) == ReadSettings(rest)
  {
    assert (" " + rest)[1..] == rest;
    assert SkipBlank(" " + rest) == SkipBlank(rest);
  }

  /** The settings written out one after the other, a space between them. */
  function SettingsText(xs: seq<Setting>): string {
    if xs == [] then "" else SettingText(xs[0]) + if |xs| == 1 then "" else " " + SettingsText(xs[1..])
  }

  lemma {:induction false} JoinedIsSettingsText(xs: seq<Setting>)
    ensures Join(Texts(xs), " ") == SettingsText(xs)
  {
    hide SettingText;
    if xs == [] {
    } else {
      var parts := Texts(xs);
      assert parts[0] == SettingText(xs[0]) && |parts| == |xs|;
      assert Join(parts[1..], " ") == SettingsText(xs[1..]) by {
        assert parts[1..] == Texts(xs[1..]);
        JoinedIsSettingsText(xs[1..]);
      }
      JoinStep(parts, " ");
    }
  }

  lemma ReadJoinedStep(x: Setting, more: string, last: bool)
    requires Readable(x) && ReadSettings(more).Some? && (last ==> more == "")
    ensures ReadSettings(SettingText(x) + if last then "" else " " + more)
         == Some([(x.key, x.value)] + ReadSettings(more).value)
  {
    ReadSettingsAfterBlank(more);
    ReadSettingsStep(x, if last then "" else " " + more);
  }

  lemma {:induction false} ReadSettingsText(xs: seq<Setting>)
    requires forall x :: x in xs ==> Readable(x)
    ensures ReadSettings(SettingsText(xs)) == Some(Pairs(xs))
  {
    if xs == [] {
      assert Pairs(xs) == [];
    } else {
      var x, more := xs[0], SettingsText(xs[1..]);
      assert Pairs(xs) == [(x.key, x.value)] + Pairs(xs[1..]);
      assert Readable(x);
      assert ReadSettings(more) == Some(Pairs(xs[1..])) by { ReadSettingsText(xs[1..]); }
      assert SettingsText(xs) == SettingText(x) + if |xs| == 1 then "" else " " + more;
      ReadJoinedStep(x, more, |xs| == 1);
    }
  }

  lemma PairsOfParts(a: seq<Setting>, b: seq<Setting>)
    ensures Pairs(a + b) == Pairs(a) + Pairs(b)
  {}

  lemma RequiredReadable(f: Discrete)
    ensures forall x :: x in Required(f) ==> Readable(x)
  {}

  lemma OptionalReadable(key: string, value: string)
    requires Plain(key) && key != ""
    ensures forall x :: x in Optional(key, value) ==> Readable(x)
  {}

  lemma SettingsReadable(f: Discrete)
    ensures forall x :: x in Settings(f) ==> Readable(x)
  {
    RequiredReadable(f);
    OptionalReadable("password", f.password);
    OptionalReadable("search_path", f.schema);
    hide Required, Optional, Readable;
  }

  /** Connection-string quoting loses nothing: by the libpq rules the printed string
      reads back as exactly the given fields, whatever quotes, backslashes or spaces
      they hold; password and schema appear exactly when they are not empty. */
  lemma ConnStringLossless(f: Discrete)
    ensures ReadSettings(Join(Texts(Settings(f)), " "))
         == Some([("host", f.host), ("port", Decimal(f.port)), ("user", f.user), ("dbname", f.database)]
                 + (if f.password != "" then [("password", f.password)] else [])
                 + (if f.schema != "" then [("search_path", f.schema)] else []))
  {
    var password, schema := Optional("password", f.password), Optional("search_path", f.schema);
    SettingsReadable(f);
    JoinedIsSettingsText(Settings(f));
    ReadSettingsText(Settings(f));
    PairsOfParts(Required(f) + password, schema);
    PairsOfParts(Required(f), password);
    assert Pairs(Required(f)) == [("host", f.host), ("port", Decimal(f.port)), ("user", f.user), ("dbname", f.database)];
    assert Pairs(password) == if f.password != "" then [("password", f.password)] else [];
    assert Pairs(schema) == if f.schema != "" then [("search_path", f.schema)] else [];
  }
}
