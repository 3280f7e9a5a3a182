/** The in-place rewriting of the PgBouncer configuration file in `service/pgbouncer.go`. */
module PgBouncerConfig {
  import opened Wrappers
  import opened Strings

  // ---------------------------------------------------------------- reading a line

  /** Blank lines, comments and section headers. */
  predicate IsSkipped(trimmed: string) {
    trimmed == "" || trimmed[0] == ';' || trimmed[0] == '#' || trimmed[0] == '['
  }

  datatype Setting = Setting(key: string, value: string)

  /** The setting on a line, as the rewriting and PgBouncer read it; None for other lines. */
  function Parse(line: string): Option<Setting> {
    var t := TrimSpace(line);
    var n := IndexOf(t, '=');
    if IsSkipped(t) || n == |t| then None
    else Some(Setting(TrimSpace(t[..n]), TrimSpace(t[n + 1..])))
  }

  /** All settings of a file, in order; keys can repeat. */
  function Settings(lines: seq<string>): seq<Setting> {
    if lines == [] then []
    else
      var p := Parse(lines[|lines| - 1]);
      Settings(lines[..|lines| - 1]) + if p.Some? then [p.value] else []
  }

  // ---------------------------------------------------------------- rewriting

  function Render(key: string, value: string): string {
    key + " = " + value
  }

  function RewriteLine(line: string, settings: map<string, string>): string {
    var p := Parse(line);
    if p.Some? && p.value.key in settings then Render(p.value.key, settings[p.value.key]) else line
  }

  function Rewrite(lines: seq<string>, settings: map<string, string>): (r: seq<string>)
    ensures |r| == |lines|
  {
    seq(|lines|, i requires 0 <= i < |lines| => RewriteLine(lines[i], settings))
  }

  /** The loop of `UpdateConfig`. */
  method RewriteInPlace(lines: array<string>, settings: map<string, string>)
    modifies lines
    ensures lines[..] == Rewrite(old(lines[..]), settings)
  {
    var i := 0;
    while i < lines.Length
      invariant 0 <= i <= lines.Length
      invariant forall k | 0 <= k < i :: lines[k] == RewriteLine(old(lines[k]), settings)
      invariant forall k | i <= k < lines.Length :: lines[k] == old(lines[k])
    {
      var trimmed := TrimSpace(lines[i]);
      if !IsSkipped(trimmed) {
        var n := IndexOf(trimmed, '=');
        if n < |trimmed| {
          var key := TrimSpace(trimmed[..n]);
          if key in settings {
            lines[i] := key + " = " + settings[key];
          }
        }
      }
      i := i + 1;
    }
  }

  /** Reading the file, rewriting it and writing it back. */
  method UpdateConfig(data: string, settings: map<string, string>) returns (written: string)
    ensures written == Join(Rewrite(Split(data, '\n'), settings), '\n')
  {
    var parts := Split(data, '\n');
    var lines := new string[|parts|](i requires 0 <= i < |parts| => parts[i]);
    assert lines[..] == parts;
    RewriteInPlace(lines, settings);
    written := Join(lines[..], '\n');
  }

  // ---------------------------------------------------------------- a written line reads back

  /** What the key of a parsed line looks like. */
  predicate GoodKey(key: string) {
    Trimmed(key) && '=' !in key && (key != "" ==> !IsSkipped(key))
  }

  lemma TrimmedKeeps(s: string, c: char)
    requires c !in s
    ensures c !in TrimSpace(s) && Trimmed(TrimSpace(s))
  {
    var l, r := TrimSpaceSplits(s);
    var t := TrimSpace(s);
    assert forall i | 0 <= i < |t| :: t[i] == s[|l| + i];
  }

  lemma ParsedKeyIsGood(line: string)
    requires Parse(line).Some?
    ensures GoodKey(Parse(line).value.key)
  {
    var t := TrimSpace(line);
    var n := IndexOf(t, '=');
    var l0, r0 := TrimSpaceSplits(line);
    var raw := t[..n];
    var key := TrimSpace(raw);
    TrimmedKeeps(raw, '=');
    var l, r := TrimSpaceSplits(raw);
    if key != "" {
      assert l == "";
      assert key[0] == t[0];
    }
  }

  lemma ParseSplit(line: string, before: string, after: string)
    requires TrimSpace(line) == before + ['='] + after && '=' !in before && !IsSkipped(TrimSpace(line))
    ensures Parse(line) == Some(Setting(TrimSpace(before), TrimSpace(after)))
  {
    var t := TrimSpace(line);
    IndexOfPrefix(before, '=', after);
    assert t[..|before|] == before && t[|before| + 1..] == after;
  }

  /** What stands before the equals sign of a written line, once trimmed. */
  function Before(key: string): string {
    if key == "" then "" else key + " "
  }

  lemma TrimBefore(key: string)
    requires GoodKey(key)
    ensures TrimSpace(Before(key)) == key && '=' !in Before(key)
  {
    var gap := if key == "" then "" else " ";
    TrimSpaceUnique("", key, gap);
    assert "" + key + gap == Before(key);
  }

  lemma TrimAfter(gap: string, v: string)
    requires AllSpace(gap) && Trimmed(v)
    ensures TrimSpace(gap + v) == v
  {
    TrimSpaceUnique(gap, v, "");
    assert gap + v + "" == gap + v;
  }

  lemma BeforeIsNotSkipped(key: string, rest: string)
    requires GoodKey(key)
    ensures !IsSkipped(Before(key) + ['='] + rest)
  {
    if key != "" { assert (Before(key) + ['='] + rest)[0] == key[0]; }
  }

  /** A line written for a good key reads back as that key with the trimmed value. */
  lemma ParseOfRender(key: string, value: string)
    requires GoodKey(key)
    ensures Parse(Render(key, value)) == Some(Setting(key, TrimSpace(value)))
  {
    var l, r := TrimSpaceSplits(value);
    var v := TrimSpace(value);
    var gap := if v == "" then "" else " " + l;
    TrimOfRender(key, value, l, r);
    assert Before(key) + "=" + gap + v == Before(key) + ['='] + (gap + v);
    TrimBefore(key);
    TrimAfter(gap, v);
    BeforeIsNotSkipped(key, gap + v);
    ParseSplit(Render(key, value), Before(key), gap + v);
  }

  lemma TrimOfRender(key: string, value: string, l: string, r: string)
    requires GoodKey(key) && value == l + TrimSpace(value) + r && AllSpace(l) && AllSpace(r)
             && Trimmed(TrimSpace(value))
    ensures var v := TrimSpace(value);
            TrimSpace(Render(key, value)) ==
            Before(key) + "=" + (if v == "" then "" else " " + l) + v
  {
    var v := TrimSpace(value);
    RenderShape(key, l, v, r);
    TrimSpaceUnique(Lead(key), Core(key, l, v), Tail(l, v, r));
  }

  /** A written line is its trimmed part between these ends. */
  function Lead(key: string): string {
    if key == "" then " " else ""
  }

  function Core(key: string, l: string, v: string): string {
    Before(key) + "=" + (if v == "" then "" else " " + l) + v
  }

  function Tail(l: string, v: string, r: string): string {
    if v == "" then " " + l + r else r
  }

  lemma RenderShape(key: string, l: string, v: string, r: string)
    ensures Render(key, l + v + r) == Lead(key) + Core(key, l, v) + Tail(l, v, r)
  {
    var s := Render(key, l + v + r);
    if v == "" {
      assert s == key + " = " + (l + r);
      if key == "" {
        assert s == " " + ("" + "=" + "" + "") + (" " + l + r);
      } else {
        assert s == "" + (key + " " + "=" + "" + "") + (" " + l + r);
      }
    } else if key == "" {
      assert s == " " + ("" + "=" + (" " + l) + v) + r;
    } else {
      assert s == "" + (key + " " + "=" + (" " + l) + v) + r;
    }
  }

  /** Rewriting a line keeps its key and puts in the new value; a line without one of the
      supplied keys stays as it is. */
  lemma LineReadsBack(line: string, settings: map<string, string>)
    ensures var p, q := Parse(line), Parse(RewriteLine(line, settings));
            if p.Some? && p.value.key in settings
            then q == Some(Setting(p.value.key, TrimSpace(settings[p.value.key])))
            else q == p && RewriteLine(line, settings) == line
  {
    if Parse(line).Some? {
      ParsedKeyIsGood(line);
      var k := Parse(line).value.key;
      if k in settings { ParseOfRender(k, settings[k]); }
    }
  }

  // ---------------------------------------------------------------- the whole file

  function Replaced(s: Setting, settings: map<string, string>): Setting {
    if s.key in settings then Setting(s.key, TrimSpace(settings[s.key])) else s
  }

  function ReplaceAll(ss: seq<Setting>, settings: map<string, string>): seq<Setting> {
    seq(|ss|, i requires 0 <= i < |ss| => Replaced(ss[i], settings))
  }

  /** Reading the rewritten lines gives the old settings, in their order, with exactly the
      values of the supplied keys replaced; keys that the file does not have are not added. */
  lemma {:induction false} SettingsAfterRewrite(lines: seq<string>, settings: map<string, string>)
    ensures Settings(Rewrite(lines, settings)) == ReplaceAll(Settings(lines), settings)
  {
    if lines == [] {
    } else {
      var front, last := lines[..|lines| - 1], lines[|lines| - 1];
      SettingsAfterRewrite(front, settings);
      LineReadsBack(last, settings);
      assert Rewrite(lines, settings)[..|lines| - 1] == Rewrite(front, settings);
    }
  }

  lemma RewriteLineTwice(line: string, first: map<string, string>, second: map<string, string>)
    ensures RewriteLine(RewriteLine(line, first), second) == RewriteLine(line, first + second)
  {
    LineReadsBack(line, first);
  }

  /** Two rewrites are one, in which the second settings win. */
  lemma RewritesCompose(lines: seq<string>, first: map<string, string>, second: map<string, string>)
    ensures Rewrite(Rewrite(lines, first), second) == Rewrite(lines, first + second)
  {
    forall i | 0 <= i < |lines|
      ensures Rewrite(Rewrite(lines, first), second)[i] == Rewrite(lines, first + second)[i]
    {
      RewriteLineTwice(lines[i], first, second);
    }
  }

  lemma RewriteIsIdempotent(lines: seq<string>, settings: map<string, string>)
    ensures Rewrite(Rewrite(lines, settings), settings) == Rewrite(lines, settings)
  {
    RewritesCompose(lines, settings, settings);
    assert settings + settings == settings;
  }

  // ---------------------------------------------------------------- lines and the file text

  /** The values that a rewrite actually writes have no line break. */
  ghost predicate WritesWholeLines(lines: seq<string>, settings: map<string, string>) {
    forall i | 0 <= i < |lines| ::
      var p := Parse(lines[i]);
      p.Some? && p.value.key in settings ==> '\n' !in settings[p.value.key]
  }

  /** Reading the written file gives the rewritten lines exactly when no value that was
      written has a line break. */
  lemma FileIsRewrittenLinesExactly(data: string, settings: map<string, string>)
    ensures var lines := Split(data, '\n');
            Split(Join(Rewrite(lines, settings), '\n'), '\n') == Rewrite(lines, settings) <==>
            WritesWholeLines(lines, settings)
  {
    var lines := Split(data, '\n');
    var out := Rewrite(lines, settings);
    SplitPartsFree(data, '\n');
    forall i | 0 <= i < |lines| ensures '\n' in out[i] <==> Breaks(lines[i], settings) {
      RenderBreaks(lines[i], settings);
    }
    if WritesWholeLines(lines, settings) {
      SplitOfJoin(out, '\n');
    } else {
      var i :| 0 <= i < |lines| && Breaks(lines[i], settings);
      SplitPartsFree(Join(out, '\n'), '\n');
      assert '\n' in out[i];
    }
  }

  predicate Breaks(line: string, settings: map<string, string>) {
    var p := Parse(line);
    p.Some? && p.value.key in settings && '\n' in settings[p.value.key]
  }

  lemma RenderBreaks(line: string, settings: map<string, string>)
    requires '\n' !in line
    ensures '\n' in RewriteLine(line, settings) <==> Breaks(line, settings)
  {
    var p := Parse(line);
    if p.Some? && p.value.key in settings {
      KeyHasNoBreak(line);
      var key, value := p.value.key, settings[p.value.key];
      var s := Render(key, value);
      assert s == (key + " = ") + value;
      assert '\n' !in key + " = ";
    }
  }

  lemma KeyHasNoBreak(line: string)
    requires '\n' !in line && Parse(line).Some?
    ensures '\n' !in Parse(line).value.key
  {
    var t := TrimSpace(line);
    TrimmedKeeps(line, '\n');
    TrimmedKeeps(t[..IndexOf(t, '=')], '\n');
  }

  /** At the level of the file text: with whole lines, the written file has the old settings
      with the supplied values, and writing the same settings again changes nothing. */
  lemma FileReadsBack(data: string, settings: map<string, string>)
    requires WritesWholeLines(Split(data, '\n'), settings)
    ensures var written := Join(Rewrite(Split(data, '\n'), settings), '\n');
            && Settings(Split(written, '\n')) == ReplaceAll(Settings(Split(data, '\n')), settings)
            && Join(Rewrite(Split(written, '\n'), settings), '\n') == written
  {
    FileIsRewrittenLinesExactly(data, settings);
    SettingsAfterRewrite(Split(data, '\n'), settings);
    RewriteIsIdempotent(Split(data, '\n'), settings);
  }

  // ---------------------------------------------------------------- which lines are settings

  /** A line is a setting exactly when, trimmed, it is neither empty nor begins with a semicolon, a
      hash or a bracket, and has an equals sign: key and value are what stands before and behind
      the first one, trimmed. */
  lemma ParseExactly(line: string) returns (before: string, after: string)
    ensures var t := TrimSpace(line);
            && (Parse(line).Some? <==> t != "" && t[0] != ';' && t[0] != '#' && t[0] != '[' && '=' in t)
            && (Parse(line).Some? ==>
                  && t == before + "=" + after && '=' !in before
                  && Parse(line).value.key == TrimSpace(before) && Parse(line).value.value == TrimSpace(after))
  {
    var t := TrimSpace(line);
    var n := IndexOf(t, '=');
    before, after := t[..n], if n < |t| then t[n + 1..] else "";
    if n < |t| {
      assert t == before + "=" + after;
    }
  }

  /** Every other line, and every setting that is not supplied, stays byte for byte; a supplied one
      becomes its key, " = " and the value. */
  lemma RewrittenLineExactly(line: string, settings: map<string, string>)
    ensures RewriteLine(line, settings) ==
            if Parse(line).Some? && Parse(line).value.key in settings
            then Parse(line).value.key + " = " + settings[Parse(line).value.key] else line
  {
  }
}
