/** The recovery settings that a restore appends to `postgresql.auto.conf` in `service/walg.go`,
    and how PostgreSQL reads that file (section 20.1.2 of the PostgreSQL documentation): one
    setting per line, and of several entries for one setting the last one counts. A missing file
    reads like an empty one. */
module RecoveryConf {
  import opened Wrappers
  import opened Strings

  const RESTORE_COMMAND := "restore_command"
  const TARGET_TIME := "recovery_target_time"
  const TARGET_ACTION := "recovery_target_action"
  const FETCH := "wal-g wal-fetch \"%f\" \"%p\""
  const PROMOTE := "promote"

  function Assignment(name: string, value: string): string {
    name + " = '" + value + "'"
  }

  /** The text appended for a restore; without a target time only the command to fetch segments. */
  function RecoveryLines(target: string): string {
    "\n" + Assignment(RESTORE_COMMAND, FETCH) + "\n"
    + if target == "" then "" else Assignment(TARGET_TIME, target) + "\n" + Assignment(TARGET_ACTION, PROMOTE) + "\n"
  }

  /** A text that stands between single quotes for itself. Timestamps in the accepted formats
      are such texts. */
  predicate PlainText(s: string) {
    forall i | 0 <= i < |s| :: s[i] != '\'' && s[i] != '\\' && s[i] != '\n'
  }

  // ---------------------------------------------------------------- reading a line

  datatype Setting = Setting(name: string, value: string)

  datatype Token = Token(text: string, rest: string)

  predicate IsBlank(c: char) {
    c == ' ' || c == '\t' || c == '\r'
  }

  function SkipBlank(s: string): (t: string)
    ensures |t| <= |s|
  {
    if s != "" && IsBlank(s[0]) then SkipBlank(s[1..]) else s
  }

  predicate IsNameStart(c: char) {
    'a' <= c <= 'z' || 'A' <= c <= 'Z' || c == '_' || c as int >= 0x80
  }

  predicate IsNameChar(c: char) {
    IsNameStart(c) || '0' <= c <= '9' || c == '$' || c == '.'
  }

  function NameEnd(s: string): (n: nat)
    ensures n <= |s|
  {
    if s == "" || !IsNameChar(s[0]) then 0 else 1 + NameEnd(s[1..])
  }

  /** Names are compared without regard to case. */
  function LowerChar(c: char): char {
    if 'A' <= c <= 'Z' then c - 'A' + 'a' else c
  }

  function Lower(s: string): string {
    seq(|s|, i requires 0 <= i < |s| => LowerChar(s[i]))
  }

  /** Only a comment or nothing is left on the line. */
  predicate IsEnd(s: string) {
    var t := SkipBlank(s);
    t == "" || t[0] == '#'
  }

  function Prepend(c: char, t: Option<Token>): Option<Token> {
    if t.None? then None else Some(Token([c] + t.value.text, t.value.rest))
  }

  /** The character that a backslash sequence stands for; octal sequences are not told apart. */
  function Escaped(c: char): char {
    if c == 'n' then '\n' else if c == 't' then '\t' else if c == 'r' then '\r' else c
  }

  /** A value behind its opening quote. */
  function ReadQuoted(s: string): Option<Token>
    decreases |s|
  {
    if s == "" then None
    else if s[0] == '\\' then if |s| == 1 then None else Prepend(Escaped(s[1]), ReadQuoted(s[2..]))
    else if s[0] != '\'' then Prepend(s[0], ReadQuoted(s[1..]))
    else if |s| > 1 && s[1] == '\'' then Prepend('\'', ReadQuoted(s[2..]))
    else Some(Token("", s[1..]))
  }

  function BareEnd(s: string): (n: nat)
    ensures n <= |s|
  {
    if s == "" || IsBlank(s[0]) || s[0] == '#' || s[0] == '\'' then 0 else 1 + BareEnd(s[1..])
  }

  function ReadValue(s: string): Option<Token> {
    if s != "" && s[0] == '\'' then ReadQuoted(s[1..])
    else
      var n := BareEnd(s);
      if n == 0 then None else Some(Token(s[..n], s[n..]))
  }

  function SkipEquals(s: string): string {
    if s != "" && s[0] == '=' then SkipBlank(s[1..]) else s
  }

  /** The setting on a line; None for blank lines, comments and what cannot be read. */
  function ReadLine(line: string): Option<Setting> {
    var s := SkipBlank(line);
    var n := NameEnd(s);
    if n == 0 || !IsNameStart(s[0]) then None
    else
      var v := ReadValue(SkipEquals(SkipBlank(s[n..])));
      if v.None? || !IsEnd(v.value.rest) then None else Some(Setting(Lower(s[..n]), v.value.text))
  }

  // ---------------------------------------------------------------- the setting in force

  function LastValue(lines: seq<string>, name: string): Option<string> {
    if lines == [] then None
    else
      var s := ReadLine(lines[|lines| - 1]);
      if s.Some? && s.value.name == name then Some(s.value.value) else LastValue(lines[..|lines| - 1], name)
  }

  /** The last assignment in a file. */
  function InForce(text: string, name: string): Option<string> {
    LastValue(Split(text, '\n'), name)
  }

  /** The target time in force; "" is no target. */
  function TimeInForce(text: string): string {
    InForce(text, TARGET_TIME).GetOr("")
  }

  lemma {:induction false} LastValueOfAppend(a: seq<string>, b: seq<string>, name: string)
    ensures LastValue(a + b, name) == if LastValue(b, name).Some? then LastValue(b, name) else LastValue(a, name)
  {
    if b == [] {
      assert a + b == a;
    } else {
      LastValueOfAppend(a, b[..|b| - 1], name);
      assert (a + b)[..|a + b| - 1] == a + b[..|b| - 1];
    }
  }

  // ---------------------------------------------------------------- a written line reads back

  predicate GoodName(name: string) {
    && name != "" && IsNameStart(name[0])
    && forall i | 0 <= i < |name| :: IsNameChar(name[i]) && !('A' <= name[i] <= 'Z')
  }

  lemma {:induction false} NameEndOf(name: string, rest: string)
    requires forall i | 0 <= i < |name| :: IsNameChar(name[i])
    requires rest != "" && !IsNameChar(rest[0])
    ensures NameEnd(name + rest) == |name|
  {
    if name == "" {
      assert name + rest == rest;
    } else {
      NameEndOf(name[1..], rest);
      assert (name + rest)[1..] == name[1..] + rest;
    }
  }

  lemma {:induction false} QuotedReadsBack(value: string)
    requires PlainText(value)
    ensures ReadQuoted(value + "'") == Some(Token(value, ""))
  {
    var s := value + "'";
    if value == "" {
      assert s == "'" && s[1..] == "";
    } else {
      QuotedReadsBack(value[1..]);
      assert s[1..] == value[1..] + "'";
      assert value == [value[0]] + value[1..];
    }
  }

  lemma ValueReadsBack(value: string)
    requires PlainText(value)
    ensures ReadValue(SkipEquals(SkipBlank(" = '" + value + "'"))) == Some(Token(value, ""))
  {
    var q := "'" + value + "'";
    assert q[1..] == value + "'";
    QuotedReadsBack(value);
    var t := " = '" + value + "'";
    assert t[1..] == "= " + q && t[1..][1..] == " " + q;
    assert (" " + q)[1..] == q;
    assert SkipBlank(q) == q;
    assert SkipBlank(" " + q) == q;
    assert SkipBlank(t) == "= " + q;
  }

  /** A line written for a name and a plain value assigns exactly that value to that name. */
  lemma AssignmentReadsBack(name: string, value: string)
    requires GoodName(name) && PlainText(value)
    ensures ReadLine(Assignment(name, value)) == Some(Setting(name, value))
  {
    var tail := " = '" + value + "'";
    var line := Assignment(name, value);
    assert line == name + tail && line[0] == name[0];
    NameEndOf(name, tail);
    assert line[..|name|] == name && line[|name|..] == tail;
    ValueReadsBack(value);
    assert Lower(name) == name;
  }

  // ---------------------------------------------------------------- the appended text

  lemma Regrouped(a: string, c: char, b: string, rest: string)
    ensures (a + [c] + b) + [c] + rest == a + [c] + (b + [c] + rest)
  {
  }

  lemma SplitStep(a: string, c: char) returns (front: string, rest: string)
    requires c in a
    ensures a == front + [c] + rest && c !in front && Split(a, c) == [front] + Split(rest, c)
  {
    var n := IndexOf(a, c);
    front, rest := a[..n], a[n + 1..];
  }

  lemma PartsRegrouped(a: seq<string>, b: seq<string>, c: seq<string>)
    ensures (a + b) + c == a + (b + c)
  {
  }

  lemma {:induction false} SplitOfAppend(a: string, c: char, b: string)
    ensures Split(a + [c] + b, c) == Split(a, c) + Split(b, c)
    decreases |a|
  {
    if c !in a {
      SplitFirst(a, c, b);
      SplitWithout(a, c);
    } else {
      var front, rest := SplitStep(a, c);
      assert |rest| < |a|;
      SplitOfAppend(rest, c, b);
      Regrouped(front, c, rest, b);
      SplitFirst(front, c, rest + [c] + b);
      PartsRegrouped([front], Split(rest, c), Split(b, c));
    }
  }

  /** The appended text as lines; the last one is empty. */
  function AppendedLines(target: string): seq<string> {
    [Assignment(RESTORE_COMMAND, FETCH)]
    + (if target == "" then [] else [Assignment(TARGET_TIME, target), Assignment(TARGET_ACTION, PROMOTE)])
    + [""]
  }

  lemma AssignmentIsOneLine(name: string, value: string)
    requires GoodName(name) && PlainText(value)
    ensures '\n' !in Assignment(name, value)
  {
    assert '\n' !in name && '\n' !in value;
    assert '\n' !in " = '" && '\n' !in "'";
  }

  lemma CommandIsGood()
    ensures GoodName(RESTORE_COMMAND) && PlainText(FETCH)
  {
  }

  lemma TimeIsGood()
    ensures GoodName(TARGET_TIME)
  {
  }

  lemma ActionIsGood()
    ensures GoodName(TARGET_ACTION) && PlainText(PROMOTE)
  {
  }

  lemma NamesAreGood()
    ensures GoodName(RESTORE_COMMAND) && GoodName(TARGET_TIME) && GoodName(TARGET_ACTION)
    ensures PlainText(FETCH) && PlainText(PROMOTE)
  {
    CommandIsGood();
    TimeIsGood();
    ActionIsGood();
  }

  lemma NamesDiffer()
    ensures RESTORE_COMMAND != TARGET_TIME && RESTORE_COMMAND != TARGET_ACTION && TARGET_TIME != TARGET_ACTION
  {
    assert |RESTORE_COMMAND| == 15 && |TARGET_TIME| == 20 && |TARGET_ACTION| == 22;
  }

  lemma JoinOfMore(line: string, rest: seq<string>)
    requires rest != []
    ensures Join([line] + rest, '\n') == line + ['\n'] + Join(rest, '\n')
  {
    assert ([line] + rest)[1..] == rest;
  }

  lemma ShortText(a: string)
    ensures Join([a] + [""], '\n') == a + "\n"
  {
    JoinOfMore(a, [""]);
    assert a + ['\n'] + "" == a + "\n";
  }

  lemma LongText(a: string, b: string, c: string)
    ensures Join([a] + ([b] + ([c] + [""])), '\n') == a + "\n" + (b + "\n" + c + "\n")
  {
    ShortText(c);
    JoinOfMore(b, [c] + [""]);
    JoinOfMore(a, [b] + ([c] + [""]));
    assert b + ['\n'] + (c + "\n") == b + "\n" + c + "\n";
  }

  /** The appended text, after its first line break, is these lines. */
  lemma AppendedIsJoined(target: string)
    ensures RecoveryLines(target) == ['\n'] + Join(AppendedLines(target), '\n')
  {
    var a, b, c := Assignment(RESTORE_COMMAND, FETCH), Assignment(TARGET_TIME, target),
        Assignment(TARGET_ACTION, PROMOTE);
    if target == "" {
      ShortText(a);
      assert AppendedLines(target) == [a] + [""];
      NothingMore(a);
    } else {
      LongText(a, b, c);
      assert AppendedLines(target) == [a] + ([b] + ([c] + [""]));
      Regroup(a, b + "\n" + c + "\n");
    }
  }

  lemma NothingMore(a: string)
    ensures "\n" + a + "\n" + "" == ['\n'] + (a + "\n")
  {
  }

  lemma Regroup(a: string, more: string)
    ensures "\n" + a + "\n" + more == ['\n'] + (a + "\n" + more)
  {
  }

  lemma AppendedAreLines(target: string)
    requires PlainText(target)
    ensures forall i | 0 <= i < |AppendedLines(target)| :: '\n' !in AppendedLines(target)[i]
  {
    NamesAreGood();
    AssignmentIsOneLine(RESTORE_COMMAND, FETCH);
    AssignmentIsOneLine(TARGET_TIME, target);
    AssignmentIsOneLine(TARGET_ACTION, PROMOTE);
  }

  /** The appended text begins a new line, whatever the file ends with. */
  lemma AppendedText(text: string, target: string)
    requires PlainText(target)
    ensures Split(text + RecoveryLines(target), '\n') == Split(text, '\n') + AppendedLines(target)
  {
    AppendedIsJoined(target);
    AppendedAreLines(target);
    LinesBehindText(text, AppendedLines(target));
  }

  lemma SplitBehind(a: string, c: char, b: string)
    ensures Split(a + ([c] + b), c) == Split(a, c) + Split(b, c)
  {
    SplitOfAppend(a, c, b);
    assert a + ([c] + b) == a + [c] + b;
  }

  lemma LinesBehindText(text: string, lines: seq<string>)
    requires lines != [] && forall i | 0 <= i < |lines| :: '\n' !in lines[i]
    ensures Split(text + (['\n'] + Join(lines, '\n')), '\n') == Split(text, '\n') + lines
  {
    SplitOfJoin(lines, '\n');
    SplitBehind(text, '\n', Join(lines, '\n'));
  }

  lemma AppendedValues(target: string, name: string)
    requires PlainText(target)
    ensures LastValue(AppendedLines(target), name) ==
            if name == RESTORE_COMMAND then Some(FETCH)
            else if name == TARGET_TIME && target != "" then Some(target)
            else if name == TARGET_ACTION && target != "" then Some(PROMOTE)
            else None
  {
    NamesAreGood();
    NamesDiffer();
    var a, b, c := Assignment(RESTORE_COMMAND, FETCH), Assignment(TARGET_TIME, target),
        Assignment(TARGET_ACTION, PROMOTE);
    AssignmentReadsBack(RESTORE_COMMAND, FETCH);
    AssignmentReadsBack(TARGET_TIME, target);
    AssignmentReadsBack(TARGET_ACTION, PROMOTE);
    assert ReadLine("") == None;
    LastOfOne(a, name);
    LastOfOne(b, name);
    LastOfOne(c, name);
    LastOfOne("", name);
    if target == "" {
      assert AppendedLines(target) == [a] + [""];
      LastValueOfAppend([a], [""], name);
    } else {
      assert AppendedLines(target) == [a] + [b] + [c] + [""];
      LastValueOfAppend([a], [b], name);
      LastValueOfAppend([a] + [b], [c], name);
      LastValueOfAppend([a] + [b] + [c], [""], name);
    }
  }

  lemma LastOfOne(line: string, name: string)
    ensures LastValue([line], name) ==
            if ReadLine(line).Some? && ReadLine(line).value.name == name then Some(ReadLine(line).value.value) else None
  {
    assert [line][..0] == [];
  }

  /** The settings in force after appending to any file: the command to fetch segments is always
      this request's, target time and action are when the request has a target, and every other
      setting is the one the file had. */
  lemma SettingsAfterAppend(text: string, target: string, name: string)
    requires PlainText(target)
    ensures InForce(text + RecoveryLines(target), name) ==
            if name == RESTORE_COMMAND then Some(FETCH)
            else if name == TARGET_TIME && target != "" then Some(target)
            else if name == TARGET_ACTION && target != "" then Some(PROMOTE)
            else InForce(text, name)
  {
    AppendedText(text, target);
    AppendedValues(target, name);
    LastValueOfAppend(Split(text, '\n'), AppendedLines(target), name);
  }

  /** The target time in force is the requested one exactly when one was requested or the file
      had none: the lines of an earlier restore are never removed. */
  lemma RequestedTimeExactly(text: string, target: string)
    requires PlainText(target)
    ensures TimeInForce(text + RecoveryLines(target)) == target <==> target != "" || TimeInForce(text) == ""
  {
    NamesDiffer();
    SettingsAfterAppend(text, target, TARGET_TIME);
  }

  /** A restore without a target, of a backup taken after one with a target, keeps the old target. */
  lemma OldTargetStays(text: string, target: string)
    requires PlainText(target) && target != ""
    ensures TimeInForce((text + RecoveryLines(target)) + RecoveryLines("")) == target != ""
  {
    NamesDiffer();
    SettingsAfterAppend(text, target, TARGET_TIME);
    SettingsAfterAppend(text + RecoveryLines(target), "", TARGET_TIME);
  }

  /** The appended text, letter by letter. */
  lemma RecoveryText(target: string)
    ensures RecoveryLines("") == "\n" + "restore_command = 'wal-g wal-fetch \"%f\" \"%p\"'" + "\n"
    ensures target != "" ==>
              RecoveryLines(target) == RecoveryLines("")
                + ("recovery_target_time = '" + target + "'\nrecovery_target_action = 'promote'\n")
  {
    CommandText();
    if target != "" { TargetText(target); }
  }

  lemma CommandText()
    ensures Assignment(RESTORE_COMMAND, FETCH) == "restore_command = 'wal-g wal-fetch \"%f\" \"%p\"'"
  {
  }

  lemma TargetText(target: string)
    ensures Assignment(TARGET_TIME, target) + "\n" + Assignment(TARGET_ACTION, PROMOTE) + "\n"
         == "recovery_target_time = '" + target + "'\nrecovery_target_action = 'promote'\n"
  {
    assert Assignment(TARGET_TIME, target) == "recovery_target_time = '" + target + "'";
    assert Assignment(TARGET_ACTION, PROMOTE) == "recovery_target_action = 'promote'";
  }
}
