/** Quoting of identifiers in `handler/maintenance.go`, against a reader of delimited
    identifiers (section 4.1.1 of the PostgreSQL documentation). */
module QuoteIdent {
  import opened Wrappers

  /** `strings.ReplaceAll(s, "\"", "\"\"")` */
  function Doubled(s: string): string {
    if s == "" then "" else (if s[0] == '"' then "\"\"" else [s[0]]) + Doubled(s[1..])
  }

  function QuoteIdent(s: string): string {
    "\"" + Doubled(s) + "\""
  }

  function QualifiedName(schema: string, name: string): string {
    QuoteIdent(schema) + "." + QuoteIdent(name)
  }

  // ---------------------------------------------------------------- the reader

  datatype Read = Read(ident: string, rest: string)

  /** The part of an identifier behind its opening quote: up to the first quote that is not
      doubled. None when there is no such quote. */
  function ReadBody(s: string): Option<Read>
    decreases |s|
  {
    if s == "" then None
    else if s[0] != '"' then
      var r := ReadBody(s[1..]);
      if r.None? then None else Some(Read([s[0]] + r.value.ident, r.value.rest))
    else if |s| > 1 && s[1] == '"' then
      var r := ReadBody(s[2..]);
      if r.None? then None else Some(Read("\"" + r.value.ident, r.value.rest))
    else Some(Read("", s[1..]))
  }

  function ReadIdent(s: string): Option<Read> {
    if s == "" || s[0] != '"' then None else ReadBody(s[1..])
  }

  datatype Qualified = Qualified(schema: string, name: string, rest: string)

  function ReadQualified(s: string): Option<Qualified> {
    var a := ReadIdent(s);
    if a.None? || a.value.rest == "" || a.value.rest[0] != '.' then None
    else
      var b := ReadIdent(a.value.rest[1..]);
      if b.None? then None else Some(Qualified(a.value.ident, b.value.ident, b.value.rest))
  }

  // ---------------------------------------------------------------- round trips

  predicate StartsWithQuote(s: string) {
    s != "" && s[0] == '"'
  }

  function WithFirst(c: char, r: Option<Read>): Option<Read> {
    if r.None? then None else Some(Read([c] + r.value.ident, r.value.rest))
  }

  lemma ReadPlain(c: char, u: string)
    requires c != '"'
    ensures ReadBody([c] + u) == WithFirst(c, ReadBody(u))
  {
    assert ([c] + u)[1..] == u;
  }

  lemma ReadDoubled(u: string)
    ensures ReadBody("\"\"" + u) == WithFirst('"', ReadBody(u))
  {
    assert ("\"\"" + u)[2..] == u;
  }

  lemma {:induction false} BodyReadsBack(s: string, rest: string)
    requires !StartsWithQuote(rest)
    ensures ReadBody(Doubled(s) + "\"" + rest) == Some(Read(s, rest))
  {
    if s == "" {
      assert ("\"" + rest)[1..] == rest;
      assert Doubled(s) + "\"" + rest == "\"" + rest;
    } else {
      BodyReadsBack(s[1..], rest);
      var u := Doubled(s[1..]) + "\"" + rest;
      assert s == [s[0]] + s[1..];
      if s[0] == '"' {
        ReadDoubled(u);
        assert Doubled(s) + "\"" + rest == "\"\"" + u;
      } else {
        ReadPlain(s[0], u);
        assert Doubled(s) + "\"" + rest == [s[0]] + u;
      }
    }
  }

  /** A quoted identifier reads back, with what follows it, exactly when what follows does not
      begin with a quote. */
  lemma QuotedReadsBackExactly(s: string, rest: string)
    ensures ReadIdent(QuoteIdent(s) + rest) == Some(Read(s, rest)) <==> !StartsWithQuote(rest)
  {
    var t := QuoteIdent(s) + rest;
    assert t[1..] == Doubled(s) + "\"" + rest;
    if StartsWithQuote(rest) {
      QuoteRunsOn(s, rest);
    } else {
      BodyReadsBack(s, rest);
    }
  }

  /** A quote right behind continues the identifier. */
  lemma {:induction false} QuoteRunsOn(s: string, rest: string)
    requires StartsWithQuote(rest)
    ensures var r := ReadBody(Doubled(s) + "\"" + rest); r.Some? ==> |r.value.rest| < |rest|
  {
    var t := Doubled(s) + "\"" + rest;
    if s == "" {
      assert t == "\"" + rest && t[2..] == rest[1..];
      RestIsShorter(rest[1..]);
    } else {
      QuoteRunsOn(s[1..], rest);
      var u := Doubled(s[1..]) + "\"" + rest;
      if s[0] == '"' {
        assert t == "\"\"" + u && t[2..] == u;
      } else {
        assert t == [s[0]] + u && t[1..] == u;
      }
    }
  }

  lemma {:induction false} RestIsShorter(s: string)
    ensures ReadBody(s).Some? ==> |ReadBody(s).value.rest| <= |s|
    decreases |s|
  {
    if s == "" {
    } else {
      RestIsShorter(s[1..]);
      if |s| > 1 { RestIsShorter(s[2..]); }
    }
  }

  /** Schema, name and the following text are recovered from a qualified name. */
  lemma QualifiedReadsBack(schema: string, name: string, rest: string)
    requires !StartsWithQuote(rest)
    ensures ReadQualified(QualifiedName(schema, name) + rest) == Some(Qualified(schema, name, rest))
  {
    var tail := "." + QuoteIdent(name) + rest;
    assert QualifiedName(schema, name) + rest == QuoteIdent(schema) + tail;
    QuotedReadsBackExactly(schema, tail);
    assert tail[1..] == QuoteIdent(name) + rest;
    QuotedReadsBackExactly(name, rest);
  }

  /** Qualified names are unambiguous. */
  lemma QualifiedNamesDiffer(schema: string, name: string, schema': string, name': string)
    requires QualifiedName(schema, name) == QualifiedName(schema', name')
    ensures schema == schema' && name == name'
  {
    QualifiedReadsBack(schema, name, "");
    QualifiedReadsBack(schema', name', "");
    assert QualifiedName(schema, name) + "" == QualifiedName(schema', name') + "";
  }
}
