/** String operations: the Python str methods that cc/gen_stub_libs.py uses, and cutting at a character. */
module Text {

  /** ASCII white space, which is what str.strip() and \s take in byte strings. */
  predicate IsSpace(c: char) {
    c == ' ' || 9 <= c as int <= 13
  }

  function LStrip(s: string): string {
    if s != "" && IsSpace(s[0]) then LStrip(s[1..]) else s
  }

  function RStrip(s: string): string {
    if s != "" && IsSpace(s[|s| - 1]) then RStrip(s[..|s| - 1]) else s
  }

  function Strip(s: string): string {
    RStrip(LStrip(s))
  }

  /** s.rstrip(';') */
  function RStripSemis(s: string): string {
    if s != "" && s[|s| - 1] == ';' then RStripSemis(s[..|s| - 1]) else s
  }

  /** s.partition(c)[0], which is also s.split(c)[0]. */
  function Before(s: string, c: char): (r: string)
    ensures c !in r
  {
    if s == "" || s[0] == c then "" else [s[0]] + Before(s[1..], c)
  }

  /** s.partition(c)[2] */
  function After(s: string, c: char): string {
    if s == "" then "" else if s[0] == c then s[1..] else After(s[1..], c)
  }

  predicate EndsWith(s: string, suffix: string) {
    |suffix| <= |s| && s[|s| - |suffix|..] == suffix
  }

  /** sub in s */
  predicate Contains(s: string, sub: string) {
    exists i :: 0 <= i <= |s| && sub <= s[i..]
  }

  /** The part of s up to its first white space, and the rest. */
  function Word(s: string): (r: string)
    ensures |r| <= |s|
  {
    if s == "" || IsSpace(s[0]) then "" else [s[0]] + Word(s[1..])
  }

  /** The nonempty parts of re.split(r'\s+', s). */
  function Tokens(s: string): seq<string>
    decreases |s|
  {
    if s == "" then [] else
    if IsSpace(s[0]) then Tokens(s[1..]) else [Word(s)] + Tokens(s[|Word(s)|..])
  }

  lemma {:induction false} LStripFacts(s: string)
    ensures LStrip(s) != "" ==> !IsSpace(LStrip(s)[0])
    ensures |LStrip(s)| <= |s| && s[|s| - |LStrip(s)|..] == LStrip(s)
    ensures forall i :: 0 <= i < |s| - |LStrip(s)| ==> IsSpace(s[i])
  {
    if s != "" && IsSpace(s[0]) {
      LStripFacts(s[1..]);
      assert s == [s[0]] + s[1..];
    }
  }

  lemma {:induction false} RStripFacts(s: string)
    ensures RStrip(s) != "" ==> !IsSpace(RStrip(s)[|RStrip(s)| - 1])
    ensures RStrip(s) <= s
    ensures forall i :: |RStrip(s)| <= i < |s| ==> IsSpace(s[i])
  {
    if s != "" && IsSpace(s[|s| - 1]) {
      RStripFacts(s[..|s| - 1]);
    }
  }

  /** Neither end of s is white space. */
  predicate Trimmed(s: string) {
    s == "" || (!IsSpace(s[0]) && !IsSpace(s[|s| - 1]))
  }

  lemma StripFacts(s: string)
    ensures Trimmed(Strip(s))
    ensures forall x :: x in Strip(s) ==> x in s
  {
    LStripFacts(s);
    RStripFacts(LStrip(s));
  }

  /** Text between white space: a trimmed string comes out of padding as it is. */
  lemma {:induction false} StripPadded(a: string, s: string, b: string)
    requires Trimmed(s) && (forall c :: c in a ==> IsSpace(c)) && (forall c :: c in b ==> IsSpace(c))
    ensures Strip(a + s + b) == s
    decreases |a| + |b|
  {
    if a != "" {
      assert IsSpace(a[0]) && (a + s + b)[1..] == a[1..] + s + b;
      StripPadded(a[1..], s, b);
    } else if b != "" && s != "" {
      var t := a + s + b;
      RStripPadded(s, b);
      assert t == s + b && LStrip(t) == t;
    } else if b != "" {
      assert IsSpace(b[0]) && (a + s + b)[1..] == a + s + b[1..];
      StripPadded(a, s, b[1..]);
    } else {
      assert a + s + b == s;
    }
  }

  lemma {:induction false} RStripPadded(s: string, b: string)
    requires (s == "" || !IsSpace(s[|s| - 1])) && forall c :: c in b ==> IsSpace(c)
    ensures RStrip(s + b) == s
  {
    if b == "" {
      assert s + b == s;
    } else {
      assert IsSpace(b[|b| - 1]) && (s + b)[..|s + b| - 1] == s + b[..|b| - 1];
      RStripPadded(s, b[..|b| - 1]);
    }
  }

  lemma {:induction false} Partition(a: string, c: char, b: string)
    requires c !in a
    ensures Before(a + [c] + b, c) == a && After(a + [c] + b, c) == b
  {
    if a == "" {
      assert a + [c] + b == [c] + b;
    } else {
      assert (a + [c] + b)[1..] == a[1..] + [c] + b;
      Partition(a[1..], c, b);
    }
  }

  lemma {:induction false} NoSeparator(a: string, c: char)
    requires c !in a
    ensures Before(a, c) == a && After(a, c) == ""
  {
    if a != "" { NoSeparator(a[1..], c); }
  }

  /** A string that has c splits into what is before and after its first c. */
  lemma {:induction false} PartitionJoin(s: string, c: char)
    requires c in s
    ensures s == Before(s, c) + [c] + After(s, c)
  {
    if s[0] != c { PartitionJoin(s[1..], c); }
  }

  lemma {:induction false} PartitionChars(s: string, c: char)
    ensures forall x :: x in Before(s, c) || x in After(s, c) ==> x in s
  {
    if s != "" && s[0] != c {
      PartitionChars(s[1..], c);
      assert s == [s[0]] + s[1..];
    }
  }

  lemma {:induction false} TokensOfText(s: string, i: nat)
    requires i < |s| && !IsSpace(s[i])
    ensures Tokens(s) != []
  {
    if IsSpace(s[0]) {
      TokensOfText(s[1..], i - 1);
    }
  }

  ghost predicate IsWord(s: string) {
    s != "" && forall c :: c in s ==> !IsSpace(c)
  }

  /** Text without white space is one token, and white space anywhere separates tokens. */
  lemma OneToken(s: string)
    requires IsWord(s)
    ensures Tokens(s) == [s]
  {
    WordOfAll(s);
    assert s[|s|..] == "";
  }

  lemma {:induction false} WordOfAll(s: string)
    requires forall c :: c in s ==> !IsSpace(c)
    ensures Word(s) == s
  {
    if s != "" { WordOfAll(s[1..]); }
  }

  lemma {:induction false} TokensConcat(a: string, c: char, b: string)
    requires IsSpace(c)
    ensures Tokens(a + [c] + b) == Tokens(a) + Tokens(b)
    decreases |a|
  {
    var s := a + [c] + b;
    if a == "" {
      assert s[1..] == b;
    } else if IsSpace(a[0]) {
      assert s[1..] == a[1..] + [c] + b;
      TokensConcat(a[1..], c, b);
    } else {
      var w := Word(a);
      WordStops(a, c, b);
      assert s[|w|..] == a[|w|..] + [c] + b;
      TokensConcat(a[|w|..], c, b);
      Assoc([w], Tokens(a[|w|..]), Tokens(b));
    }
  }

  lemma {:induction false} WordStops(a: string, c: char, b: string)
    requires IsSpace(c)
    ensures Word(a + [c] + b) == Word(a)
  {
    if a != "" && !IsSpace(a[0]) {
      assert (a + [c] + b)[1..] == a[1..] + [c] + b;
      WordStops(a[1..], c, b);
    }
  }

  /** Words with a space between them are read as these words. */
  lemma {:induction false} TokensOfJoined(words: seq<string>)
    requires forall i :: 0 <= i < |words| ==> IsWord(words[i])
    ensures Tokens(Joined(words, " ")) == words
  {
    if words != [] {
      OneToken(words[0]);
      TokensOfJoined(words[1..]);
      if |words| > 1 {
        assert Joined(words, " ") == words[0] + [' '] + Joined(words[1..], " ");
        TokensConcat(words[0], ' ', Joined(words[1..], " "));
      }
      assert words == [words[0]] + words[1..];
    }
  }

  lemma {:induction false} RStripSemisFacts(s: string)
    ensures RStripSemis(s) <= s
    ensures RStripSemis(s) != "" ==> RStripSemis(s)[|RStripSemis(s)| - 1] != ';'
    ensures s != "" && s[|s| - 1] == ';' ==> |RStripSemis(s)| < |s|
  {
    if s != "" && s[|s| - 1] == ';' {
      RStripSemisFacts(s[..|s| - 1]);
    }
  }

  /*** Decimal numbers: str() and int() ***/

  predicate IsDigit(c: char) {
    '0' <= c <= '9'
  }

  function Digits(n: nat): (r: string)
    ensures r != "" && AllDigits(r)
  {
    var d := [('0' as int + n % 10) as char];
    if n < 10 then d else Digits(n / 10) + d
  }

  /** str(n) */
  function Str(n: int): string {
    if n < 0 then "-" + Digits(-n) else Digits(n)
  }

  predicate AllDigits(s: string) {
    forall i :: 0 <= i < |s| ==> IsDigit(s[i])
  }

  function DigitsValue(s: string): int
    requires AllDigits(s)
  {
    if s == "" then 0 else 10 * DigitsValue(s[..|s| - 1]) + (s[|s| - 1] as int - '0' as int)
  }

  /** Whether int(s) succeeds, for an s without white space: a sign and digits. */
  predicate IsInt(s: string) {
    var d := if s != "" && (s[0] == '+' || s[0] == '-') then s[1..] else s;
    d != "" && AllDigits(d)
  }

  /** int(s) */
  function Int(s: string): int
    requires IsInt(s)
  {
    if s[0] == '-' then -DigitsValue(s[1..])
    else if s[0] == '+' then DigitsValue(s[1..])
    else DigitsValue(s)
  }

  lemma {:induction false} DigitsRoundTrip(n: nat)
    ensures DigitsValue(Digits(n)) == n
  {
    var r := Digits(n);
    if n >= 10 {
      DigitsRoundTrip(n / 10);
      assert r[..|r| - 1] == Digits(n / 10);
    }
  }

  lemma StrRoundTrip(n: int)
    ensures IsInt(Str(n)) && Int(Str(n)) == n
  {
    if n < 0 {
      DigitsRoundTrip(-n);
      assert Str(n)[1..] == Digits(-n);
    } else {
      DigitsRoundTrip(n);
      assert IsDigit(Digits(n)[0]);
    }
  }

  /*** Files as lines ***/

  /** What readline() returns before the end of the file: a newline can only be the last character. */
  predicate IsLine(l: string) {
    l != "" && '\n' !in l[..|l| - 1]
  }

  /** The results of readline() over a whole text. */
  function Lines(text: string): (r: seq<string>)
    ensures forall i :: 0 <= i < |r| ==> IsLine(r[i])
    decreases |text|
  {
    if text == "" then []
    else if '\n' in text then
      PartitionJoin(text, '\n');
      var first := Before(text, '\n') + ['\n'];
      assert first[..|first| - 1] == Before(text, '\n');
      [first] + Lines(After(text, '\n'))
    else [text]
  }

  function Concat(lines: seq<string>): string {
    if lines == [] then "" else lines[0] + Concat(lines[1..])
  }

  /** strings.Join(strs, sep) */
  function Joined(strs: seq<string>, sep: string): string {
    if strs == [] then "" else if |strs| == 1 then strs[0] else strs[0] + sep + Joined(strs[1..], sep)
  }

  lemma ConcatOne(l: string)
    ensures Concat([l]) == l
  {
    assert [l][1..] == [];
  }

  lemma Assoc<T>(a: seq<T>, b: seq<T>, c: seq<T>)
    ensures a + b + c == a + (b + c)
  {}

  lemma TakeDrop<T>(s: seq<T>, k: nat)
    requires k <= |s|
    ensures s == s[..k] + s[k..]
  {}

  lemma {:induction false} ConcatAppend(a: seq<string>, b: seq<string>)
    ensures Concat(a + b) == Concat(a) + Concat(b)
  {
    if a == [] {
      assert a + b == b;
    } else {
      assert (a + b)[1..] == a[1..] + b;
      ConcatAppend(a[1..], b);
    }
  }

  /** Reading lines loses nothing. */
  lemma {:induction false} LinesJoin(text: string)
    ensures Concat(Lines(text)) == text
    decreases |text|
  {
    if text == "" {
    } else if '\n' in text {
      PartitionJoin(text, '\n');
      var first := Before(text, '\n') + ['\n'];
      LinesJoin(After(text, '\n'));
      assert Lines(text)[0] == first && Lines(text)[1..] == Lines(After(text, '\n'));
    } else {
      ConcatOne(text);
    }
  }

  /** Reading back what was written line by line gives the lines. */
  lemma {:induction false} LinesOfConcat(lines: seq<string>)
    requires forall i :: 0 <= i < |lines| ==> IsLine(lines[i]) && lines[i][|lines[i]| - 1] == '\n'
    ensures Lines(Concat(lines)) == lines
  {
    if lines != [] {
      var l := lines[0];
      assert IsLine(l) && l == l[..|l| - 1] + ['\n'];
      LinesOfConcat(lines[1..]);
      Partition(l[..|l| - 1], '\n', Concat(lines[1..]));
      assert Concat(lines) == l[..|l| - 1] + ['\n'] + Concat(lines[1..]);
      assert lines == [l] + lines[1..];
    }
  }
}
