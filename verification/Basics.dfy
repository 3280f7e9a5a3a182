/** Optional values and error results shared by every component. */
module Wrappers {
  datatype Option<+T> = None | Some(value: T) {
    function GetOr(other: T): T {
      if Some? then value else other
    }
  }

  datatype Result<+T> = Ok(value: T) | Err(message: string)
}

/** The part of Go's `strings` and `strconv` packages that the program relies on.
    A string is a sequence of Unicode characters. */
module Strings {
  import opened Wrappers

  // ---------------------------------------------------------------- white space

  /** The characters that `unicode.IsSpace` accepts. */
  predicate IsSpace(c: char) {
    var n := c as int;
    || n == 0x20 || 0x09 <= n <= 0x0D || n == 0x85 || n == 0xA0 || n == 0x1680
    || 0x2000 <= n <= 0x200A || n == 0x2028 || n == 0x2029 || n == 0x202F || n == 0x205F || n == 0x3000
  }

  predicate AllSpace(s: string) {
    forall i | 0 <= i < |s| :: IsSpace(s[i])
  }

  function TrimLeft(s: string): string {
    if s != "" && IsSpace(s[0]) then TrimLeft(s[1..]) else s
  }

  function TrimRight(s: string): string {
    if s != "" && IsSpace(s[|s| - 1]) then TrimRight(s[..|s| - 1]) else s
  }

  function TrimSpace(s: string): string {
    TrimRight(TrimLeft(s))
  }

  /** No white space at either end. */
  predicate Trimmed(s: string) {
    s != "" ==> !IsSpace(s[0]) && !IsSpace(s[|s| - 1])
  }

  lemma {:induction false} TrimLeftSplits(s: string) returns (n: nat)
    ensures n <= |s| && s[n..] == TrimLeft(s) && AllSpace(s[..n]) && (n < |s| ==> !IsSpace(s[n]))
  {
    if s != "" && IsSpace(s[0]) {
      var m := TrimLeftSplits(s[1..]);
      n := m + 1;
      assert s[n..] == s[1..][m..];
      assert s[..n] == [s[0]] + s[1..][..m];
    } else {
      n := 0;
    }
  }

  lemma {:induction false} TrimRightSplits(s: string) returns (n: nat)
    ensures n <= |s| && s[..n] == TrimRight(s) && AllSpace(s[n..]) && (n > 0 ==> !IsSpace(s[n - 1]))
  {
    if s != "" && IsSpace(s[|s| - 1]) {
      var t := s[..|s| - 1];
      n := TrimRightSplits(t);
      assert s[..n] == t[..n];
      assert s[n..] == t[n..] + [s[|s| - 1]];
    } else {
      n := |s|;
    }
  }

  /** `TrimSpace` removes white space at both ends and nothing else. */
  lemma TrimSpaceSplits(s: string) returns (l: string, r: string)
    ensures s == l + TrimSpace(s) + r && AllSpace(l) && AllSpace(r) && Trimmed(TrimSpace(s))
  {
    var n := TrimLeftSplits(s);
    var t := TrimLeft(s);
    var m := TrimRightSplits(t);
    l, r := s[..n], t[m..];
    assert t == t[..m] + t[m..];
    assert s == s[..n] + s[n..];
    if m > 0 {
      assert t[..m][0] == t[0] == s[n];
      assert t[..m][m - 1] == t[m - 1];
    }
  }

  lemma {:induction false} TrimLeftSkips(l: string, s: string)
    requires AllSpace(l) && (s != "" ==> !IsSpace(s[0]))
    ensures TrimLeft(l + s) == s
  {
    if l == "" {
      assert l + s == s;
    } else {
      assert (l + s)[1..] == l[1..] + s && (l + s)[0] == l[0];
      TrimLeftSkips(l[1..], s);
    }
  }

  lemma {:induction false} TrimRightSkips(s: string, r: string)
    requires AllSpace(r) && (s != "" ==> !IsSpace(s[|s| - 1]))
    ensures TrimRight(s + r) == s
  {
    if r == "" {
      assert s + r == s;
    } else {
      var r' := r[..|r| - 1];
      assert (s + r)[..|s + r| - 1] == s + r' && (s + r)[|s + r| - 1] == r[|r| - 1];
      TrimRightSkips(s, r');
    }
  }

  /** White space around a trimmed text is what `TrimSpace` removes. */
  lemma TrimSpaceUnique(l: string, s: string, r: string)
    requires AllSpace(l) && AllSpace(r) && Trimmed(s)
    ensures TrimSpace(l + s + r) == s
  {
    if s == "" {
      TrimLeftSkips(l + r, "");
      assert l + s + r == (l + r) + "";
    } else {
      TrimLeftSkips(l, s + r);
      assert l + s + r == l + (s + r);
      TrimRightSkips(s, r);
    }
  }

  // ---------------------------------------------------------------- splitting

  /** Position of the first `c`, or the length when there is none. */
  function IndexOf(s: string, c: char): (n: nat)
    ensures n <= |s|
    ensures n < |s| ==> s[n] == c
    ensures forall i | 0 <= i < n :: s[i] != c
  {
    if s == "" || s[0] == c then 0 else 1 + IndexOf(s[1..], c)
  }

  lemma IndexOfPrefix(a: string, c: char, b: string)
    requires c !in a
    ensures IndexOf(a + [c] + b, c) == |a|
  {
    var s := a + [c] + b;
    var n := IndexOf(s, c);
    assert s[|a|] == c;
    assert forall i | 0 <= i < |a| :: s[i] == a[i];
  }

  /** `strings.Split` by a one-character separator. */
  function Split(s: string, c: char): (parts: seq<string>)
    ensures |parts| > 0
    decreases |s|
  {
    var n := IndexOf(s, c);
    if n == |s| then [s] else [s[..n]] + Split(s[n + 1..], c)
  }

  /** `strings.Join` by a one-character separator. */
  function Join(parts: seq<string>, c: char): string {
    if parts == [] then ""
    else if |parts| == 1 then parts[0]
    else parts[0] + [c] + Join(parts[1..], c)
  }

  lemma {:induction false} SplitPartsFree(s: string, c: char)
    ensures forall i | 0 <= i < |Split(s, c)| :: c !in Split(s, c)[i]
    decreases |s|
  {
    var n := IndexOf(s, c);
    if n < |s| { SplitPartsFree(s[n + 1..], c); }
  }

  lemma {:induction false} JoinOfSplit(s: string, c: char)
    ensures Join(Split(s, c), c) == s
    decreases |s|
  {
    var n := IndexOf(s, c);
    if n < |s| {
      JoinOfSplit(s[n + 1..], c);
      assert Split(s, c)[1..] == Split(s[n + 1..], c);
      assert s == s[..n] + [c] + s[n + 1..];
    }
  }

  lemma SplitFirst(a: string, c: char, rest: string)
    requires c !in a
    ensures Split(a + [c] + rest, c) == [a] + Split(rest, c)
  {
    var s := a + [c] + rest;
    IndexOfPrefix(a, c, rest);
    assert s[..|a|] == a && s[|a| + 1..] == rest;
  }

  lemma {:induction false} SplitOfJoin(parts: seq<string>, c: char)
    requires |parts| > 0
    requires forall i | 0 <= i < |parts| :: c !in parts[i]
    ensures Split(Join(parts, c), c) == parts
  {
    if |parts| > 1 {
      var rest := Join(parts[1..], c);
      SplitOfJoin(parts[1..], c);
      SplitFirst(parts[0], c, rest);
      assert parts == [parts[0]] + parts[1..];
    } else {
      assert IndexOf(parts[0], c) == |parts[0]|;
    }
  }

  lemma SplitWithout(a: string, c: char)
    requires c !in a
    ensures Split(a, c) == [a]
  {
    assert IndexOf(a, c) == |a|;
  }

  lemma FirstApart(x: string, y: string, z: string, c: char)
    ensures x + [c] + y + [c] + z == x + [c] + (y + [c] + z)
  {
  }

  lemma SplitThree(x: string, y: string, z: string, c: char)
    requires c !in x && c !in y && c !in z
    ensures Split(x + [c] + y + [c] + z, c) == [x, y, z]
  {
    SplitWithout(z, c);
    SplitFirst(y, c, z);
    FirstApart(x, y, z, c);
    SplitFirst(x, c, y + [c] + z);
  }

  // ---------------------------------------------------------------- two texts around one separator

  /** `a + sep + b`, the way the program builds compound keys and fingerprints. */
  function Pair(a: string, sep: char, b: string): string {
    a + [sep] + b
  }

  /** When the first parts have no separator the pair can be taken apart again. */
  lemma PairInjective(a: string, b: string, a': string, b': string, sep: char)
    requires sep !in a && sep !in a'
    requires Pair(a, sep, b) == Pair(a', sep, b')
    ensures a == a' && b == b'
  {
    IndexOfPrefix(a, sep, b);
    IndexOfPrefix(a', sep, b');
    var s := Pair(a, sep, b);
    assert s[..|a|] == a && s[..|a'|] == a';
    assert s[|a| + 1..] == b && s[|a'| + 1..] == b';
  }

  /** Likewise when the second parts have no separator. */
  lemma PairInjectiveRight(a: string, b: string, a': string, b': string, sep: char)
    requires sep !in b && sep !in b'
    requires Pair(a, sep, b) == Pair(a', sep, b')
    ensures a == a' && b == b'
  {
    var s, t := Pair(a, sep, b), Pair(a', sep, b');
    assert s[|a|] == sep && t[|a'|] == sep;
    assert forall i | |a| < i < |s| :: s[i] == b[i - |a| - 1];
    assert forall i | |a'| < i < |t| :: t[i] == b'[i - |a'| - 1];
    assert |a| == |a'|;
    assert s[..|a|] == a && t[..|a'|] == a';
    assert s[|a| + 1..] == b && t[|a'| + 1..] == b';
  }

  lemma PairClashExtends(a: string, x: string, b: string, y: string, sep: char)
    requires a != b && Pair(a, sep, x) == Pair(b, sep, y)
    ensures a + [sep] <= b || b + [sep] <= a
  {
    var s, t := Pair(a, sep, x), Pair(b, sep, y);
    assert s[..|a|] == a && t[..|b|] == b && s[|a|] == sep && t[|b|] == sep;
    if |a| < |b| {
      assert b == s[..|b|];
      assert a + [sep] == b[..|a| + 1];
    } else if |b| < |a| {
      assert a == t[..|a|];
      assert b + [sep] == a[..|b| + 1];
    }
  }

  /** Different first parts give the same pair for some second parts exactly when one is the
      other followed by the separator. */
  lemma PairsClashExactly(a: string, b: string, sep: char)
    requires a != b
    ensures (exists x, y :: Pair(a, sep, x) == Pair(b, sep, y)) <==> (a + [sep] <= b || b + [sep] <= a)
  {
    if x, y :| Pair(a, sep, x) == Pair(b, sep, y) {
      PairClashExtends(a, x, b, y, sep);
    }
    if a + [sep] <= b {
      assert Pair(a, sep, Pair(b[|a| + 1..], sep, "")) == Pair(b, sep, "");
    }
    if b + [sep] <= a {
      assert Pair(a, sep, "") == Pair(b, sep, Pair(a[|b| + 1..], sep, ""));
    }
  }

  /** The same text cut at an earlier and at a later separator, with m between the cuts. */
  ghost predicate Shifted(a: string, b: string, a': string, b': string, sep: char) {
    exists m :: ShiftedBy(a, b, a', b', sep, m)
  }

  predicate ShiftedBy(a: string, b: string, a': string, b': string, sep: char, m: string) {
    a' == Pair(a, sep, m) && b == Pair(m, sep, b')
  }

  lemma ShorterFirstPart(a: string, b: string, a': string, b': string, sep: char)
    requires Pair(a, sep, b) == Pair(a', sep, b') && |a| < |a'|
    ensures Shifted(a, b, a', b', sep)
  {
    var s, m := Pair(a, sep, b), a'[|a| + 1..];
    assert s[..|a|] == a && s[|a|] == sep && s[|a| + 1..] == b;
    assert s[..|a'|] == a' && s[|a'|] == sep && s[|a'| + 1..] == b';
    assert a' == s[..|a|] + [s[|a|]] + s[|a| + 1..|a'|];
    assert m == s[|a| + 1..|a'|];
    assert b == s[|a| + 1..|a'|] + [s[|a'|]] + s[|a'| + 1..];
    assert ShiftedBy(a, b, a', b', sep, m);
  }

  lemma ShiftedIsSame(a: string, b: string, a': string, b': string, sep: char)
    requires Shifted(a, b, a', b', sep)
    ensures Pair(a, sep, b) == Pair(a', sep, b')
  {
    var m :| ShiftedBy(a, b, a', b', sep, m);
    assert Pair(a, sep, Pair(m, sep, b')) == Pair(Pair(a, sep, m), sep, b');
  }

  /** Two pairs give the same text exactly when they are equal or one is the other cut elsewhere. */
  lemma PairsEqualExactly(a: string, b: string, a': string, b': string, sep: char)
    ensures Pair(a, sep, b) == Pair(a', sep, b') <==>
            (a == a' && b == b') || Shifted(a, b, a', b', sep) || Shifted(a', b', a, b, sep)
  {
    if Pair(a, sep, b) == Pair(a', sep, b') {
      if |a| < |a'| {
        ShorterFirstPart(a, b, a', b', sep);
      } else if |a'| < |a| {
        ShorterFirstPart(a', b', a, b, sep);
      } else {
        SameFirstPart(a, b, a', b', sep);
      }
    }
    if Shifted(a, b, a', b', sep) { ShiftedIsSame(a, b, a', b', sep); }
    if Shifted(a', b', a, b, sep) { ShiftedIsSame(a', b', a, b, sep); }
  }

  lemma SameFirstPart(a: string, b: string, a': string, b': string, sep: char)
    requires Pair(a, sep, b) == Pair(a', sep, b') && |a| == |a'|
    ensures a == a' && b == b'
  {
    var s := Pair(a, sep, b);
    assert s[..|a|] == a && s[..|a'|] == a';
    assert s[|a| + 1..] == b && s[|a'| + 1..] == b';
  }

  // ---------------------------------------------------------------- numerals

  function DigitChar(d: nat): (c: char)
    requires d < 16
  {
    if d < 10 then '0' + d as char else 'A' + (d - 10) as char
  }

  /** The value of a digit, upper- or lower-case, or None. */
  function DigitValue(c: char): (d: Option<nat>)
  {
    if '0' <= c <= '9' then Some((c - '0') as nat)
    else if 'A' <= c <= 'F' then Some((c - 'A') as nat + 10)
    else if 'a' <= c <= 'f' then Some((c - 'a') as nat + 10)
    else None
  }

  /** Digits are those of either case and nothing else. */
  lemma DigitsExactly(c: char, d: nat)
    ensures DigitValue(c) == Some(d) <==>
            d < 16 && (c == "0123456789abcdef"[d] || c == "0123456789ABCDEF"[d])
  {
  }

  lemma DigitRoundTrip(d: nat)
    requires d < 16
    ensures DigitValue(DigitChar(d)) == Some(d)
  {
  }

  /** A number in the given base without leading zeros; zero is "0". */
  function Numeral(n: nat, base: nat): (s: string)
    requires 2 <= base <= 16
    ensures s != ""
  {
    if n < base then [DigitChar(n)] else Numeral(n / base, base) + [DigitChar(n % base)]
  }

  /** The value of a nonempty digit string, or None for an empty or malformed one. */
  function NumeralValue(s: string, base: nat): Option<nat>
    requires 2 <= base <= 16
  {
    if s == "" then None
    else
      var d := DigitValue(s[|s| - 1]);
      if d.None? || d.value >= base then None
      else if |s| == 1 then d
      else
        var hi := NumeralValue(s[..|s| - 1], base);
        if hi.None? then None else Some(hi.value * base + d.value)
  }

  function Zeros(k: nat): string {
    seq(k, _ => '0')
  }

  /** `%0<width>d`: left padding with zeros. */
  function Padded(n: nat, base: nat, width: nat): string
    requires 2 <= base <= 16
  {
    var s := Numeral(n, base);
    Zeros(if |s| < width then width - |s| else 0) + s
  }

  lemma DivMod(n: nat, base: nat)
    requires base > 0
    ensures n / base * base + n % base == n && n % base < base
  {
  }

  lemma DivSmaller(n: nat, base: nat)
    requires 2 <= base <= 16 && base <= n
    ensures n / base < n
  {
  }

  /** One more digit at the end. */
  lemma NumeralValueStep(s: string, d: nat, base: nat)
    requires 2 <= base <= 16 && d < base
    requires s != "" && NumeralValue(s, base).Some?
    ensures NumeralValue(s + [DigitChar(d)], base) == Some(NumeralValue(s, base).value * base + d)
  {
    var t := s + [DigitChar(d)];
    DigitRoundTrip(d);
    assert t[|t| - 1] == DigitChar(d) && t[..|t| - 1] == s;
  }

  lemma {:induction false} NumeralValueOfNumeral(n: nat, base: nat)
    requires 2 <= base <= 16
    ensures NumeralValue(Numeral(n, base), base) == Some(n)
  {
    if n < base {
      DigitRoundTrip(n);
    } else {
      DivMod(n, base);
      DivSmaller(n, base);
      NumeralValueOfNumeral(n / base, base);
      NumeralValueStep(Numeral(n / base, base), n % base, base);
    }
  }

  lemma {:induction false} LeadingZeros(s: string, base: nat, zeros: nat)
    requires 2 <= base <= 16 && s != "" && NumeralValue(s, base).Some?
    ensures NumeralValue(Zeros(zeros) + s, base) == NumeralValue(s, base)
    decreases |s|
  {
    var front, t := s[..|s| - 1], Zeros(zeros) + s;
    assert t[|t| - 1] == s[|s| - 1] && t[..|t| - 1] == Zeros(zeros) + front;
    if front != "" {
      LeadingZeros(front, base, zeros);
    } else {
      assert Zeros(zeros) + front == Zeros(zeros);
      ZerosAreZero(base, zeros);
    }
  }

  lemma {:induction false} ZerosAreZero(base: nat, zeros: nat)
    requires 2 <= base <= 16
    ensures zeros > 0 ==> NumeralValue(Zeros(zeros), base) == Some(0)
  {
    if zeros == 0 {
    } else {
      var t := Zeros(zeros);
      assert t[..|t| - 1] == Zeros(zeros - 1) && t[|t| - 1] == '0';
      ZerosAreZero(base, zeros - 1);
    }
  }

  /** Reading a numeral gives back the number, however many zeros stand in front. */
  lemma NumeralRoundTrip(n: nat, base: nat, zeros: nat)
    requires 2 <= base <= 16
    ensures NumeralValue(Zeros(zeros) + Numeral(n, base), base) == Some(n)
  {
    NumeralValueOfNumeral(n, base);
    LeadingZeros(Numeral(n, base), base, zeros);
  }

  lemma PaddedRoundTrip(n: nat, base: nat, width: nat)
    requires 2 <= base <= 16
    ensures NumeralValue(Padded(n, base, width), base) == Some(n)
  {
    var s := Numeral(n, base);
    NumeralRoundTrip(n, base, if |s| < width then width - |s| else 0);
  }

  /** Numerals hold digits only. */
  lemma {:induction false} NumeralDigits(n: nat, base: nat)
    requires 2 <= base <= 16
    ensures forall i | 0 <= i < |Numeral(n, base)| :: DigitValue(Numeral(n, base)[i]).Some?
  {
    if n < base {
      DigitRoundTrip(n);
    } else {
      NumeralDigits(n / base, base);
      DigitRoundTrip(n % base);
    }
  }

  lemma PaddedDigits(n: nat, base: nat, width: nat)
    requires 2 <= base <= 16
    ensures forall i | 0 <= i < |Padded(n, base, width)| :: DigitValue(Padded(n, base, width)[i]).Some?
  {
    NumeralDigits(n, base);
  }
}
