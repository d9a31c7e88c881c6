/** Resolution of an OpenSSH client config for a host alias, against its declarative meaning. */
module SshConfig {
  import opened Base
  import opened Ascii

  // ---- Characters ------------------------------------------------------------

  /** Unicode White_Space, as `char::is_whitespace`. */
  predicate IsWhitespace(c: char) {
    var x := c as int;
    || 9 <= x <= 13 || x == 0x20 || x == 0x85 || x == 0xA0 || x == 0x1680 || 0x2000 <= x <= 0x200A
    || x == 0x2028 || x == 0x2029 || x == 0x202F || x == 0x205F || x == 0x3000
  }

  /** `u8::is_ascii_whitespace`: vertical tab is not among them. */
  predicate IsAsciiWhitespace(c: char) { c == ' ' || c == '\t' || c == '\n' || c == '\r' || c as int == 0x0C }

  predicate IsSeparator(c: char) { c == '=' || IsWhitespace(c) }

  function Lowercase(s: string): string { seq(|s|, i requires 0 <= i < |s| => Lower(s[i])) }

  function TrimStart(s: string): string { if s != "" && IsWhitespace(s[0]) then TrimStart(s[1..]) else s }
  function TrimEnd(s: string): string { if s != "" && IsWhitespace(s[|s| - 1]) then TrimEnd(s[..|s| - 1]) else s }
  function Trim(s: string): string { TrimEnd(TrimStart(s)) }

  function SkipSeparators(s: string): string { if s != "" && IsSeparator(s[0]) then SkipSeparators(s[1..]) else s }

  /** Index of the first separator, or the length. */
  function KeywordEnd(s: string): (n: nat)
    ensures n <= |s|
    ensures forall i :: 0 <= i < n ==> !IsSeparator(s[i])
    ensures n < |s| ==> IsSeparator(s[n])
  {
    if s == "" || IsSeparator(s[0]) then 0 else 1 + KeywordEnd(s[1..])
  }

  /** Index of the first `#`, or the length. */
  function CommentStart(s: string): (n: nat)
    ensures n <= |s|
    ensures forall i :: 0 <= i < n ==> s[i] != '#'
    ensures n < |s| ==> s[n] == '#'
  {
    if s == "" || s[0] == '#' then 0 else 1 + CommentStart(s[1..])
  }

  // ---- Lines -----------------------------------------------------------------

  /** Index of the first line feed, or the length. */
  function LineEnd(s: string): (n: nat)
    ensures n <= |s|
    ensures forall i :: 0 <= i < n ==> s[i] != '\n'
    ensures n < |s| ==> s[n] == '\n'
  {
    if s == "" || s[0] == '\n' then 0 else 1 + LineEnd(s[1..])
  }

  function DropReturn(s: string): string { if s != "" && s[|s| - 1] == '\r' then s[..|s| - 1] else s }

  /** `str::lines` */
  function Lines(text: string): seq<string>
    decreases |text|
  {
    if text == "" then []
    else
      var n := LineEnd(text);
      if n == |text| then [text] else [DropReturn(text[..n])] + Lines(text[n + 1..])
  }

  /** The first line of a longer text is the same, and what follows it is longer. */
  lemma FirstLine(text: string, more: string)
    requires LineEnd(text) < |text|
    ensures var n := LineEnd(text);
      LineEnd(text + more) == n && (text + more)[..n] == text[..n] && (text + more)[n + 1..] == text[n + 1..] + more
  {
    var n, whole := LineEnd(text), text + more;
    assert whole[n] == '\n' && forall i :: 0 <= i < n ==> whole[i] == text[i];
  }

  /** A head in front of two parts. */
  lemma Assemble<T>(whole: seq<T>, front: seq<T>, head: seq<T>, rest: seq<T>, more: seq<T>)
    requires whole == head + (rest + more) && front == head + rest
    ensures whole == front + more
  {
  }

  lemma LinesStep(text: string)
    requires LineEnd(text) < |text|
    ensures Lines(text) == [DropReturn(text[..LineEnd(text)])] + Lines(text[LineEnd(text) + 1..])
  {
    hide LineEnd, DropReturn;
  }

  /** The same first line in front of a longer text. */
  lemma LinesOfLonger(text: string, more: string)
    requires LineEnd(text) < |text|
    ensures Lines(text + more) == [DropReturn(text[..LineEnd(text)])] + Lines(text[LineEnd(text) + 1..] + more)
  {
    FirstLine(text, more);
    hide Lines, LineEnd, DropReturn;
    LinesStep(text + more);
  }

  lemma LastLineEnds(text: string)
    requires text != "" && text[|text| - 1] == '\n'
    ensures LineEnd(text) < |text|
    ensures var rest := text[LineEnd(text) + 1..]; rest == "" || rest[|rest| - 1] == '\n'
  {
  }

  /** One line in front of text that appends well. */
  lemma LinesPrepend(text: string, rest: string, more: string)
    requires LineEnd(text) < |text| && rest == text[LineEnd(text) + 1..]
    requires Lines(rest + more) == Lines(rest) + Lines(more)
    ensures Lines(text + more) == Lines(text) + Lines(more)
  {
    hide Lines, LineEnd, DropReturn;
    var head := [DropReturn(text[..LineEnd(text)])];
    assert Lines(text) == head + Lines(rest) by { LinesStep(text); }
    assert Lines(text + more) == head + Lines(rest + more) by { LinesOfLonger(text, more); }
    Assemble(Lines(text + more), Lines(text), head, Lines(rest), Lines(more));
  }

  /** Text appended after a complete line adds its own lines and changes none. */
  lemma {:induction false} LinesAppend(text: string, more: string)
    requires text == "" || text[|text| - 1] == '\n'
    ensures Lines(text + more) == Lines(text) + Lines(more)
    decreases |text|
  {
    if text == "" {
      assert text + more == more;
    } else {
      hide Lines, LineEnd;
      LastLineEnds(text);
      var rest := text[LineEnd(text) + 1..];
      LinesAppend(rest, more);
      LinesPrepend(text, rest, more);
    }
  }

  /** Lines with their endings, and a last one without. */
  function Joined(lines: seq<string>, endings: seq<string>, last: string): string
    requires |endings| == |lines|
  {
    if lines == [] then last else lines[0] + (endings[0] + Joined(lines[1..], endings[1..], last))
  }

  /** A line with its ending in front of a text. */
  lemma LinesOfFirst(line: string, ending: string, rest: string)
    requires '\n' !in line && (ending == "\r\n" || (ending == "\n" && (line == "" || line[|line| - 1] != '\r')))
    ensures Lines(line + (ending + rest)) == [line] + Lines(rest)
  {
    var text := line + (ending + rest);
    var n := |line| + |ending| - 1;
    assert text[n] == '\n' && text[n + 1..] == rest;
    assert forall i :: 0 <= i < n ==> text[i] != '\n';
    assert LineEnd(text) == n;
    assert text[..n] == line + ending[..|ending| - 1];
    assert ending == "\r\n" ==> ending[..1] == "\r" && text[..n][n - 1] == '\r' && text[..n][..n - 1] == line;
    assert ending == "\n" ==> text[..n] == line;
    hide LineEnd;
    LinesStep(text);
  }

  /** A text is cut at its line feeds, and a carriage return before one goes with it: the lines come back, in order. */
  lemma {:induction false} LinesExact(lines: seq<string>, endings: seq<string>, last: string)
    requires |endings| == |lines| && '\n' !in last
    requires forall i :: 0 <= i < |lines| ==>
      && '\n' !in lines[i]
      && (endings[i] == "\r\n" || (endings[i] == "\n" && (lines[i] == "" || lines[i][|lines[i]| - 1] != '\r')))
    ensures Lines(Joined(lines, endings, last)) == lines + (if last == "" then [] else [last])
    decreases |lines|
  {
    if lines == [] {
      assert last != "" ==> LineEnd(last) == |last|;
    } else {
      hide Lines;
      LinesExact(lines[1..], endings[1..], last);
      LinesOfFirst(lines[0], endings[0], Joined(lines[1..], endings[1..], last));
      assert lines == [lines[0]] + lines[1..];
    }
  }

  function StripComment(line: string): string {
    var n := CommentStart(line);
    if n == |line| then line
    else if n == 0 then ""
    else if IsAsciiWhitespace(line[n - 1]) then line[..n]
    else line
  }

  function SplitKeyword(line: string): Option<(string, string)> {
    var n := KeywordEnd(line);
    if n == |line| || n == 0 then None
    else Some((line[..n], Trim(SkipSeparators(line[n..]))))
  }

  function Unquote(value: string): string {
    var v := Trim(value);
    if |v| >= 2 && v[0] == '"' && v[|v| - 1] == '"' then v[1..|v| - 1] else v
  }

  /** What one line asks for. */
  datatype Directive =
    | Nothing
    | HostBlock(patterns: string)
    | MatchBlock
    | HostName(name: string)
    | User(user: string)
    | Port(text: string)
    | IdentityFile(file: string)

  function Parse(raw: string): Directive {
    var line := Trim(StripComment(raw));
    if line == "" then Nothing
    else
      var split := SplitKeyword(line);
      if split.None? then Nothing
      else
        var (keyword, value) := (Lowercase(split.value.0), split.value.1);
        if keyword == "host" then HostBlock(value)
        else if keyword == "match" then MatchBlock
        else if keyword == "hostname" then HostName(Unquote(value))
        else if keyword == "user" then User(Unquote(value))
        else if keyword == "port" then Port(Unquote(value))
        else if keyword == "identityfile" then IdentityFile(Unquote(value))
        else Nothing
  }

  // ---- Glob patterns ---------------------------------------------------------

  /** `matches`, the recursive search. */
  predicate GlobMatch(pattern: string, text: string)
    decreases |pattern| + |text|
  {
    if pattern == "" then text == ""
    else if pattern[0] == '*' then GlobMatch(pattern[1..], text) || (text != "" && GlobMatch(pattern, text[1..]))
    else if pattern[0] == '?' then text != "" && GlobMatch(pattern[1..], text[1..])
    else text != "" && text[0] == pattern[0] && GlobMatch(pattern[1..], text[1..])
  }

  function Concat(parts: seq<string>): string {
    if parts == [] then "" else parts[0] + Concat(parts[1..])
  }

  /** A run that one pattern character may stand for. */
  predicate StandsFor(c: char, run: string) {
    c == '*' || (c == '?' && |run| == 1) || (c != '?' && run == [c])
  }

  /** `parts` assigns a run of text to every character of the pattern. */
  ghost predicate Assigns(pattern: string, parts: seq<string>) {
    |parts| == |pattern| && forall i :: 0 <= i < |pattern| ==> StandsFor(pattern[i], parts[i])
  }

  ghost predicate Spells(pattern: string, text: string) {
    exists parts :: Assigns(pattern, parts) && Concat(parts) == text
  }

  lemma ConcatHead(part: string, parts: seq<string>)
    ensures Concat([part] + parts) == part + Concat(parts)
  {
    assert ([part] + parts)[1..] == parts;
  }

  lemma AssignsHead(pattern: string, part: string, parts: seq<string>)
    requires pattern != "" && StandsFor(pattern[0], part) && Assigns(pattern[1..], parts)
    ensures Assigns(pattern, [part] + parts)
  {
  }

  lemma {:induction false} MatchSpells(pattern: string, text: string)
    requires GlobMatch(pattern, text)
    ensures Spells(pattern, text)
    decreases |pattern| + |text|
  {
    if pattern == "" {
      assert Assigns(pattern, []) && Concat([]) == text;
    } else if pattern[0] == '*' && GlobMatch(pattern[1..], text) {
      MatchSpells(pattern[1..], text);
      var parts :| Assigns(pattern[1..], parts) && Concat(parts) == text;
      AssignsHead(pattern, "", parts);
      ConcatHead("", parts);
    } else if pattern[0] == '*' {
      MatchSpells(pattern, text[1..]);
      var parts :| Assigns(pattern, parts) && Concat(parts) == text[1..];
      var longer := [text[0]] + parts[0];
      assert Assigns(pattern[1..], parts[1..]);
      AssignsHead(pattern, longer, parts[1..]);
      ConcatHead(longer, parts[1..]);
      assert [text[0]] + (parts[0] + Concat(parts[1..])) == text;
    } else {
      MatchSpells(pattern[1..], text[1..]);
      var parts :| Assigns(pattern[1..], parts) && Concat(parts) == text[1..];
      AssignsHead(pattern, [text[0]], parts);
      ConcatHead([text[0]], parts);
    }
  }

  lemma {:induction false} StarMatches(pattern: string, run: string, text: string)
    requires pattern != "" && pattern[0] == '*' && GlobMatch(pattern[1..], text)
    ensures GlobMatch(pattern, run + text)
    decreases |run|
  {
    if run == "" {
      assert run + text == text;
    } else {
      StarMatches(pattern, run[1..], text);
      assert (run + text)[1..] == run[1..] + text;
    }
  }

  lemma {:induction false} SpellsMatch(pattern: string, parts: seq<string>)
    requires Assigns(pattern, parts)
    ensures GlobMatch(pattern, Concat(parts))
    decreases |pattern|
  {
    if pattern != "" {
      var rest := Concat(parts[1..]);
      assert Assigns(pattern[1..], parts[1..]);
      SpellsMatch(pattern[1..], parts[1..]);
      assert StandsFor(pattern[0], parts[0]);
      if pattern[0] == '*' {
        StarMatches(pattern, parts[0], rest);
      } else {
        assert (parts[0] + rest)[1..] == rest;
      }
    }
  }

  /**
   The search accepts exactly the texts that some assignment of runs to `*` and of single characters to `?` spells.
   */
  lemma GlobExact(pattern: string, text: string)
    ensures GlobMatch(pattern, text) <==> Spells(pattern, text)
  {
    if GlobMatch(pattern, text) { MatchSpells(pattern, text); }
    if Spells(pattern, text) {
      var parts :| Assigns(pattern, parts) && Concat(parts) == text;
      SpellsMatch(pattern, parts);
    }
  }

  // ---- Host lines ------------------------------------------------------------

  /** Length of the leading run without whitespace. */
  function WordEnd(s: string): (n: nat)
    ensures n <= |s|
    ensures forall i :: 0 <= i < n ==> !IsWhitespace(s[i])
    ensures n < |s| ==> IsWhitespace(s[n])
  {
    if s == "" || IsWhitespace(s[0]) then 0 else 1 + WordEnd(s[1..])
  }

  /** `split_whitespace` */
  function Words(s: string): seq<string>
    decreases |s|
  {
    if s == "" then []
    else if IsWhitespace(s[0]) then Words(s[1..])
    else [s[..WordEnd(s)]] + Words(s[WordEnd(s)..])
  }

  /** A pattern of a host line that stands without `!` and matches, or with `!` and matches. */
  ghost predicate Accepts(words: seq<string>, alias: string) {
    exists i :: 0 <= i < |words| && !("!" <= words[i]) && Spells(words[i], alias)
  }

  ghost predicate Vetoes(words: seq<string>, alias: string) {
    exists i :: 0 <= i < |words| && "!" <= words[i] && Spells(words[i][1..], alias)
  }

  /** A host line is active if and only if some plain pattern matches and no negated one does. */
  ghost predicate HostActive(patterns: string, alias: string) {
    Accepts(Words(patterns), alias) && !Vetoes(Words(patterns), alias)
  }

  method HostPatternsMatch(patterns: string, alias: string) returns (active: bool)
    ensures active <==> HostActive(patterns, alias)
  {
    hide Spells, GlobMatch;
    var words := Words(patterns);
    active := false;
    for i := 0 to |words|
      invariant active <==> exists k :: 0 <= k < i && !("!" <= words[k]) && Spells(words[k], alias)
      invariant forall k :: 0 <= k < i && "!" <= words[k] ==> !Spells(words[k][1..], alias)
    {
      if "!" <= words[i] {
        GlobExact(words[i][1..], alias);
        if GlobMatch(words[i][1..], alias) {
          return false;
        }
      } else {
        GlobExact(words[i], alias);
        if GlobMatch(words[i], alias) {
          active := true;
        }
      }
    }
  }

  lemma WordsStep(a: string)
    requires a != "" && !IsWhitespace(a[0])
    ensures WordEnd(a) > 0 && Words(a) == [a[..WordEnd(a)]] + Words(a[WordEnd(a)..])
  {
    assert WordEnd(a) > 0;
    hide WordEnd;
  }

  /** The first word of a text continued at whitespace is the same, and what follows it is longer. */
  lemma FirstWord(a: string, b: string)
    requires a != "" && (b == "" || IsWhitespace(b[0]) || IsWhitespace(a[|a| - 1]))
    ensures var n := WordEnd(a); WordEnd(a + b) == n && (a + b)[..n] == a[..n] && (a + b)[n..] == a[n..] + b
  {
    WordEndConcat(a, b);
    hide WordEnd;
  }

  /** The same first word in front of a text continued at whitespace. */
  lemma WordsOfLonger(a: string, b: string)
    requires a != "" && !IsWhitespace(a[0]) && (b == "" || IsWhitespace(b[0]) || IsWhitespace(a[|a| - 1]))
    ensures Words(a + b) == [a[..WordEnd(a)]] + Words(a[WordEnd(a)..] + b)
  {
    hide Words, WordEnd;
    FirstWord(a, b);
    assert (a + b)[0] == a[0];
    WordsStep(a + b);
  }

  /** Text put together at whitespace has the words of both parts. */
  lemma {:induction false} WordsConcat(a: string, b: string)
    requires a == "" || b == "" || IsWhitespace(b[0]) || IsWhitespace(a[|a| - 1])
    ensures Words(a + b) == Words(a) + Words(b)
    decreases |a|
  {
    if a == "" {
      assert a + b == b;
    } else if IsWhitespace(a[0]) {
      assert (a + b)[1..] == a[1..] + b;
      WordsConcat(a[1..], b);
    } else {
      var n := WordEnd(a);
      hide Words, WordEnd;
      WordsStep(a);
      WordsOfLonger(a, b);
      WordsConcat(a[n..], b);
      Assemble(Words(a + b), Words(a), [a[..n]], Words(a[n..]), Words(b));
    }
  }

  lemma {:induction false} WordEndConcat(a: string, b: string)
    requires a != "" && (b == "" || IsWhitespace(b[0]) || IsWhitespace(a[|a| - 1]))
    ensures WordEnd(a + b) == WordEnd(a)
    decreases |a|
  {
    if |a| == 1 {
      assert a[1..] == "" && (a + b)[1..] == b;
    } else {
      assert (a + b)[1..] == a[1..] + b;
      WordEndConcat(a[1..], b);
    }
  }

  lemma {:induction false} WordsOfWord(word: string)
    requires word != "" && forall i :: 0 <= i < |word| ==> !IsWhitespace(word[i])
    ensures Words(word) == [word]
  {
    assert WordEnd(word) == |word|;
    assert word[..|word|] == word && word[|word|..] == "";
  }

  predicate Blank(s: string) { forall i :: 0 <= i < |s| ==> IsWhitespace(s[i]) }
  predicate IsWord(s: string) { s != "" && forall i :: 0 <= i < |s| ==> !IsWhitespace(s[i]) }

  lemma {:induction false} WordsOfBlank(s: string)
    requires Blank(s)
    ensures Words(s) == []
    decreases |s|
  {
    if s != "" { WordsOfBlank(s[1..]); }
  }

  /** The words with a gap before each, and one at the end. */
  function Spread(words: seq<string>, gaps: seq<string>): string
    requires |gaps| == |words| + 1
  {
    if words == [] then gaps[0] else gaps[0] + (words[0] + Spread(words[1..], gaps[1..]))
  }

  /**
   A text is cut at whitespace and nowhere else: whatever blanks stand before, between and after the words, exactly the
   words come back, in order and undivided.
   */
  lemma {:induction false} WordsExact(words: seq<string>, gaps: seq<string>)
    requires |gaps| == |words| + 1 && (forall i :: 0 <= i < |gaps| ==> Blank(gaps[i]))
    requires (forall i :: 0 <= i < |words| ==> IsWord(words[i])) && forall i :: 0 < i < |words| ==> gaps[i] != ""
    ensures Words(Spread(words, gaps)) == words
    decreases |words|
  {
    WordsOfBlank(gaps[0]);
    if words != [] {
      var rest := Spread(words[1..], gaps[1..]);
      WordsExact(words[1..], gaps[1..]);
      assert rest == "" || IsWhitespace(rest[0]) by {
        if words[1..] != [] { assert gaps[1] != ""; }
      }
      hide Words, Spread;
      WordsOfWord(words[0]);
      WordsConcat(words[0], rest);
      WordsConcat(gaps[0], words[0] + rest);
      assert [words[0]] + words[1..] == words;
    }
  }

  // ---- Ports -----------------------------------------------------------------

  predicate IsDigit(c: char) { '0' <= c <= '9' }

  function Digits(s: string): nat
    requires forall i :: 0 <= i < |s| ==> IsDigit(s[i])
  {
    if s == "" then 0
    else
      assert IsDigit(s[|s| - 1]);
      10 * Digits(s[..|s| - 1]) + (s[|s| - 1] as int - '0' as int)
  }

  /** `str::parse::<u16>`: an optional plus sign and at least one digit, below 65536. */
  function ParsePort(s: string): Option<nat> { ParseDigits(if "+" <= s then s[1..] else s) }

  function ParseDigits(digits: string): Option<nat> {
    if digits == "" then None
    else if exists i :: 0 <= i < |digits| && !IsDigit(digits[i]) then None
    else if Digits(digits) < 65536 then Some(Digits(digits))
    else None
  }

  /** The digits of `n`. */
  function Decimal(n: nat): string {
    if n < 10 then [('0' as int + n) as char] else Decimal(n / 10) + [('0' as int + n % 10) as char]
  }

  lemma {:induction false} DecimalDigits(n: nat)
    ensures Decimal(n) != "" && (forall i :: 0 <= i < |Decimal(n)| ==> IsDigit(Decimal(n)[i]))
    ensures Digits(Decimal(n)) == n
  {
    if n >= 10 {
      DecimalDigits(n / 10);
      assert Decimal(n)[..|Decimal(n)| - 1] == Decimal(n / 10);
    } else {
      assert Decimal(n)[..0] == "";
    }
  }

  /** A run of digits is zeros and then the decimal digits of a number, or zeros alone. */
  lemma {:induction false} DigitsOf(s: string) returns (zeros: nat)
    requires s != "" && forall i :: 0 <= i < |s| ==> IsDigit(s[i])
    ensures zeros <= |s| && (forall i :: 0 <= i < zeros ==> s[i] == '0')
    ensures s[zeros..] == Decimal(Digits(s))
    decreases |s|
  {
    var n := |s| - 1;
    assert IsDigit(s[n]);
    var last := s[n] as int - '0' as int;
    assert s[n] == ('0' as int + last) as char;
    if n == 0 {
      assert s[..0] == "" && Digits(s) == last && s == [s[0]];
      zeros := 0;
      assert s[0..] == s;
    } else {
      var front := s[..n];
      var z := DigitsOf(front);
      assert Digits(s) == 10 * Digits(front) + last;
      if Digits(front) == 0 {
        DecimalOfZero(front, z);
        zeros := n;
        assert s[n..] == [s[n]];
      } else {
        zeros := z;
        assert Digits(s) / 10 == Digits(front) && Digits(s) % 10 == last;
        assert s[z..] == front[z..] + [s[n]];
      }
    }
  }

  /** Digits that add up to nothing are zeros. */
  lemma DecimalOfZero(s: string, z: nat)
    requires z <= |s| && (forall i :: 0 <= i < z ==> s[i] == '0') && s[z..] == Decimal(0)
    ensures forall i :: 0 <= i < |s| ==> s[i] == '0'
  {
    assert |s| == z + 1 && s[z] == s[z..][0];
  }

  lemma AllDigits(digits: string)
    requires ParseDigits(digits).Some?
    ensures digits != "" && (forall i :: 0 <= i < |digits| ==> IsDigit(digits[i]))
    ensures ParseDigits(digits).value == Digits(digits) && Digits(digits) < 65536
  {
  }

  /** Nothing else is a port: a text that is read as one is an optional plus sign, zeros, and its decimal digits. */
  lemma PortExact(s: string) returns (from: nat)
    requires ParsePort(s).Some?
    ensures ParsePort(s).value < 65536 && from <= |s| && s[from..] == Decimal(ParsePort(s).value)
    ensures forall i :: 0 <= i < from ==> s[i] == '0' || (i == 0 && s[0] == '+')
  {
    var sign := if "+" <= s then 1 else 0;
    var digits := s[sign..];
    assert s[0..] == s;
    assert ParsePort(s) == ParseDigits(digits);
    AllDigits(digits);
    var zeros := DigitsOf(digits);
    from := sign + zeros;
    assert s[from..] == digits[zeros..];
    assert forall i :: sign <= i < from ==> s[i] == digits[i - sign];
  }

  lemma {:induction false} LeadingZero(s: string)
    requires forall i :: 0 <= i < |s| ==> IsDigit(s[i])
    ensures Digits("0" + s) == Digits(s)
    decreases |s|
  {
    if s == "" {
      assert "0"[..0] == "";
    } else {
      LeadingZero(s[..|s| - 1]);
      assert ("0" + s)[..|s|] == "0" + s[..|s| - 1];
    }
  }

  /** Every port number is read back from its decimal digits, and nothing above 65535 is a port. */
  lemma PortRoundTrip(n: nat)
    ensures ParsePort(Decimal(n)) == if n < 65536 then Some(n) else None
    ensures ParsePort("+" + Decimal(n)) == ParsePort(Decimal(n)) && ParsePort("0" + Decimal(n)) == ParsePort(Decimal(n))
  {
    DecimalDigits(n);
    LeadingZero(Decimal(n));
    var padded := "0" + Decimal(n);
    assert padded[0] == '0' && forall i :: 0 <= i < |padded| ==> IsDigit(padded[i]);
    assert ("+" + Decimal(n))[1..] == Decimal(n);
    assert IsDigit(Decimal(n)[0]);
  }

  // ---- Meaning ---------------------------------------------------------------

  datatype HostConfig = HostConfig(hostname: Option<string>, user: Option<string>, port: Option<nat>,
                                   identityFiles: seq<string>)

  /** Whether settings on line `i` apply: the nearest block line above it decides; above all blocks they do. */
  ghost predicate ActiveAt(lines: seq<string>, alias: string, i: nat)
    requires i <= |lines|
  {
    if i == 0 then true
    else
      match Parse(lines[i - 1])
      case HostBlock(patterns) => HostActive(patterns, alias)
      case MatchBlock => false
      case _ => ActiveAt(lines, alias, i - 1)
  }

  function NameOf(d: Directive): Option<string> { if d.HostName? then Some(d.name) else None }
  function UserOf(d: Directive): Option<string> { if d.User? then Some(d.user) else None }
  function PortOf(d: Directive): Option<nat> { if d.Port? then ParsePort(d.text) else None }
  function FileOf(d: Directive): Option<string> { if d.IdentityFile? then Some(d.file) else None }

  /** The usable value, if any, that line `i` gives. */
  ghost function Given<T>(lines: seq<string>, alias: string, i: nat, pick: Directive -> Option<T>): Option<T>
    requires i < |lines|
  {
    if ActiveAt(lines, alias, i) then pick(Parse(lines[i])) else None
  }

  /** `value` is given by line `i`, and no earlier line gives one. */
  ghost predicate FirstAt<T>(lines: seq<string>, alias: string, pick: Directive -> Option<T>, i: nat, value: T) {
    && i < |lines| && Given(lines, alias, i, pick) == Some(value)
    && forall j :: 0 <= j < i ==> Given(lines, alias, j, pick).None?
  }

  /** The setting is the first usable value of an active line, and absent if and only if there is none. */
  ghost predicate IsFirst<T>(lines: seq<string>, alias: string, pick: Directive -> Option<T>, setting: Option<T>) {
    match setting
    case None => forall i :: 0 <= i < |lines| ==> Given(lines, alias, i, pick).None?
    case Some(value) => exists i: nat :: FirstAt(lines, alias, pick, i, value)
  }

  /** All identity files of active lines, in order. */
  ghost function Files(lines: seq<string>, alias: string, upto: nat): seq<string>
    requires upto <= |lines|
  {
    if upto == 0 then []
    else
      var given := Given(lines, alias, upto - 1, FileOf);
      Files(lines, alias, upto - 1) + (if given.Some? then [given.value] else [])
  }

  ghost predicate Means(lines: seq<string>, alias: string, config: HostConfig) {
    && IsFirst(lines, alias, NameOf, config.hostname)
    && IsFirst(lines, alias, UserOf, config.user)
    && IsFirst(lines, alias, PortOf, config.port)
    && config.identityFiles == Files(lines, alias, |lines|)
  }

  // ---- Prefixes --------------------------------------------------------------

  lemma {:induction false} ActivePrefix(lines: seq<string>, more: seq<string>, alias: string, i: nat)
    requires i <= |lines|
    ensures ActiveAt(lines + more, alias, i) == ActiveAt(lines, alias, i)
  {
    if i > 0 { ActivePrefix(lines, more, alias, i - 1); }
  }

  lemma GivenPrefix<T>(lines: seq<string>, more: seq<string>, alias: string, i: nat, pick: Directive -> Option<T>)
    requires i < |lines|
    ensures Given(lines + more, alias, i, pick) == Given(lines, alias, i, pick)
  {
    ActivePrefix(lines, more, alias, i);
  }

  lemma {:induction false} FilesPrefix(lines: seq<string>, more: seq<string>, alias: string, upto: nat)
    requires upto <= |lines|
    ensures Files(lines + more, alias, upto) == Files(lines, alias, upto)
  {
    hide Given;
    if upto > 0 {
      FilesPrefix(lines, more, alias, upto - 1);
      GivenPrefix(lines, more, alias, upto - 1, FileOf);
    }
  }

  /** One more line: it counts only if nothing came before it. */
  lemma FirstOfOneMore<T>(lines: seq<string>, line: string, alias: string, pick: Directive -> Option<T>,
                          setting: Option<T>)
    requires IsFirst(lines, alias, pick, setting)
    ensures IsFirst(lines + [line], alias, pick,
                    if setting.Some? then setting else Given(lines + [line], alias, |lines|, pick))
  {
    hide Given;
    var longer := lines + [line];
    forall i | 0 <= i < |lines|
      ensures Given(longer, alias, i, pick) == Given(lines, alias, i, pick)
    {
      GivenPrefix(lines, [line], alias, i, pick);
    }
    if setting.Some? {
      var i: nat :| FirstAt(lines, alias, pick, i, setting.value);
      assert FirstAt(longer, alias, pick, i, setting.value);
    } else if Given(longer, alias, |lines|, pick).Some? {
      assert FirstAt(longer, alias, pick, |lines|, Given(longer, alias, |lines|, pick).value);
    }
  }

  lemma FilesOfOneMore(lines: seq<string>, line: string, alias: string)
    ensures Files(lines + [line], alias, |lines| + 1)
         == Files(lines, alias, |lines|)
            + var given := Given(lines + [line], alias, |lines|, FileOf); if given.Some? then [given.value] else []
  {
    FilesPrefix(lines, [line], alias, |lines|);
  }

  /** What one line does to the configuration built so far. */
  function Applied(config: HostConfig, d: Directive): HostConfig {
    match d
    case HostName(name) => if config.hostname.None? then config.(hostname := Some(name)) else config
    case User(user) => if config.user.None? then config.(user := Some(user)) else config
    case Port(text) => if config.port.None? then config.(port := ParsePort(text)) else config
    case IdentityFile(file) => config.(identityFiles := config.identityFiles + [file])
    case _ => config
  }

  lemma MeansOneMore(lines: seq<string>, line: string, alias: string, config: HostConfig)
    requires Means(lines, alias, config)
    ensures Means(lines + [line], alias,
                  if ActiveAt(lines, alias, |lines|) then Applied(config, Parse(line)) else config)
  {
    hide IsFirst, Files, Parse;
    ActivePrefix(lines, [line], alias, |lines|);
    FirstOfOneMore(lines, line, alias, NameOf, config.hostname);
    FirstOfOneMore(lines, line, alias, UserOf, config.user);
    FirstOfOneMore(lines, line, alias, PortOf, config.port);
    FilesOfOneMore(lines, line, alias);
    assert (lines + [line])[|lines|] == line;
  }

  lemma MeansNothing(alias: string)
    ensures Means([], alias, HostConfig(None, None, None, []))
  {
  }

  /** `resolve`, before tilde expansion. */
  method ResolveText(text: string, alias: string) returns (config: HostConfig)
    ensures Means(Lines(text), alias, config)
  {
    config := Resolve(Lines(text), alias);
  }

  /** The loop of `resolve`. */
  method Resolve(lines: seq<string>, alias: string) returns (config: HostConfig)
    ensures Means(lines, alias, config)
  {
    hide Means, Parse, HostActive;
    config := HostConfig(None, None, None, []);
    var active := true;
    MeansNothing(alias);
    for i := 0 to |lines|
      invariant Means(lines[..i], alias, config)
      invariant active == ActiveAt(lines, alias, i)
    {
      assert lines[..i + 1] == lines[..i] + [lines[i]];
      ActivePrefix(lines[..i], lines[i..], alias, i);
      assert lines[..i] + lines[i..] == lines;
      MeansOneMore(lines[..i], lines[i], alias, config);
      var d := Parse(lines[i]);
      match d
      case HostBlock(patterns) => active := HostPatternsMatch(patterns, alias);
      case MatchBlock => active := false;
      case HostName(name) =>
        if active && config.hostname.None? { config := config.(hostname := Some(name)); }
      case User(user) =>
        if active && config.user.None? { config := config.(user := Some(user)); }
      case Port(text) =>
        if active && config.port.None? && ParsePort(text).Some? { config := config.(port := ParsePort(text)); }
      case IdentityFile(file) =>
        if active { config := config.(identityFiles := config.identityFiles + [file]); }
      case Nothing =>
    }
    assert lines[..|lines|] == lines;
  }

  // ---- Consequences ----------------------------------------------------------

  lemma FirstUnique<T>(lines: seq<string>, more: seq<string>, alias: string, pick: Directive -> Option<T>, a: Option<T>,
                       b: Option<T>)
    requires IsFirst(lines, alias, pick, a) && IsFirst(lines + more, alias, pick, b)
    ensures a.Some? ==> b == a
    ensures more == [] ==> b == a
  {
    hide Given;
    forall i | 0 <= i < |lines|
      ensures Given(lines + more, alias, i, pick) == Given(lines, alias, i, pick)
    {
      GivenPrefix(lines, more, alias, i, pick);
    }
    assert more == [] ==> lines + more == lines;
    if a.Some? {
      var i: nat :| FirstAt(lines, alias, pick, i, a.value);
      assert Given(lines + more, alias, i, pick) == a;
      if b.Some? {
        var j: nat :| FirstAt(lines + more, alias, pick, j, b.value);
        assert i == j;
      }
    }
  }

  /** A config text has one meaning, so `Resolve` computes it. */
  lemma MeaningUnique(lines: seq<string>, alias: string, a: HostConfig, b: HostConfig)
    requires Means(lines, alias, a) && Means(lines, alias, b)
    ensures a == b
  {
    assert lines + [] == lines;
    hide IsFirst;
    FirstUnique(lines, [], alias, NameOf, a.hostname, b.hostname);
    FirstUnique(lines, [], alias, UserOf, a.user, b.user);
    FirstUnique(lines, [], alias, PortOf, a.port, b.port);
  }

  lemma {:induction false} FilesGrow(lines: seq<string>, alias: string, i: nat, j: nat)
    requires i <= j <= |lines|
    ensures Files(lines, alias, i) <= Files(lines, alias, j)
    decreases j
  {
    hide Given;
    if i < j { FilesGrow(lines, alias, i, j - 1); }
  }

  /** Appending lines never changes a field that is set, and only adds identity files at the end. */
  lemma AppendKeeps(lines: seq<string>, more: seq<string>, alias: string, before: HostConfig, after: HostConfig)
    requires Means(lines, alias, before) && Means(lines + more, alias, after)
    ensures before.hostname.Some? ==> after.hostname == before.hostname
    ensures before.user.Some? ==> after.user == before.user
    ensures before.port.Some? ==> after.port == before.port
    ensures before.identityFiles <= after.identityFiles
  {
    hide IsFirst;
    FirstUnique(lines, more, alias, NameOf, before.hostname, after.hostname);
    FirstUnique(lines, more, alias, UserOf, before.user, after.user);
    FirstUnique(lines, more, alias, PortOf, before.port, after.port);
    FilesPrefix(lines, more, alias, |lines|);
    FilesGrow(lines + more, alias, |lines|, |lines + more|);
  }

  /** The same for the text of the config: what stands in a complete earlier part is never overridden by a later one. */
  lemma AppendTextKeeps(text: string, more: string, alias: string, before: HostConfig, after: HostConfig)
    requires text == "" || text[|text| - 1] == '\n'
    requires Means(Lines(text), alias, before) && Means(Lines(text + more), alias, after)
    ensures before.hostname.Some? ==> after.hostname == before.hostname
    ensures before.user.Some? ==> after.user == before.user
    ensures before.port.Some? ==> after.port == before.port
    ensures before.identityFiles <= after.identityFiles
  {
    hide Means, Lines;
    LinesAppend(text, more);
    AppendKeeps(Lines(text), Lines(more), alias, before, after);
  }

  // ---- Reading a line back ---------------------------------------------------

  predicate Plain(s: string) { s != "" && !IsSeparator(s[0]) && !IsWhitespace(s[|s| - 1]) }

  lemma {:induction false} SkipsExactly(separators: string, value: string)
    requires (forall i :: 0 <= i < |separators| ==> IsSeparator(separators[i]))
    requires (value == "" || !IsSeparator(value[0]))
    ensures SkipSeparators(separators + value) == value
    decreases |separators|
  {
    if separators == "" {
      assert separators + value == value;
    } else {
      assert (separators + value)[1..] == separators[1..] + value;
      SkipsExactly(separators[1..], value);
    }
  }

  lemma {:induction false} KeywordEndExact(keyword: string, rest: string)
    requires (forall i :: 0 <= i < |keyword| ==> !IsSeparator(keyword[i])) && (rest == "" || IsSeparator(rest[0]))
    ensures KeywordEnd(keyword + rest) == |keyword|
    decreases |keyword|
  {
    if keyword == "" {
      assert keyword + rest == rest;
    } else {
      assert (keyword + rest)[1..] == keyword[1..] + rest;
      KeywordEndExact(keyword[1..], rest);
    }
  }

  /** Keyword and value come back whatever mix of spaces and equals signs separates them. */
  lemma SplitsBack(keyword: string, separators: string, value: string)
    requires keyword != "" && forall i :: 0 <= i < |keyword| ==> !IsSeparator(keyword[i])
    requires separators != "" && forall i :: 0 <= i < |separators| ==> IsSeparator(separators[i])
    requires Plain(value)
    ensures SplitKeyword(keyword + separators + value) == Some((keyword, value))
  {
    var line := keyword + separators + value;
    assert line == keyword + (separators + value);
    KeywordEndExact(keyword, separators + value);
    SkipsExactly(separators, value);
    assert line[..|keyword|] == keyword && line[|keyword|..] == separators + value;
  }

  /** A quoted value comes back as it is, spaces and all. */
  lemma UnquotesBack(value: string)
    ensures Unquote("\"" + value + "\"") == value
  {
    var quoted := "\"" + value + "\"";
    assert TrimStart(quoted) == quoted && TrimEnd(quoted) == quoted;
    assert quoted[1..|quoted| - 1] == value;
  }

  /**
   Only the first `#` is looked at: a line is cut there if it stands first or after whitespace, and otherwise kept
   whole, even if a later `#` does follow whitespace.
   */
  lemma {:induction false} CommentExact(front: string, rest: string)
    requires forall i :: 0 <= i < |front| ==> front[i] != '#'
    ensures StripComment(front + "#" + rest) ==
      if front == "" || IsAsciiWhitespace(front[|front| - 1]) then front else front + "#" + rest
  {
    var line := front + "#" + rest;
    assert CommentStart(line) == |front| by {
      assert line[|front|] == '#';
      assert forall i :: 0 <= i < |front| ==> line[i] == front[i];
    }
    assert line[..|front|] == front;
  }

  // ---- What a whole line asks for ------------------------------------------------

  /** `keyword` is `word` with some of its letters in upper case. */
  predicate Spelled(keyword: string, word: string) {
    |keyword| == |word| && forall i :: 0 <= i < |word| ==> AlikeButForCase(keyword[i], word[i])
  }

  lemma SpelledExact(keyword: string, word: string)
    requires Lowercase(word) == word
    ensures Spelled(keyword, word) <==> Lowercase(keyword) == word
  {
    if |keyword| == |word| {
      forall i | 0 <= i < |word|
        ensures AlikeButForCase(keyword[i], word[i]) <==> Lowercase(keyword)[i] == word[i]
      {
        LowerExact(keyword[i], word[i]);
        assert Lowercase(word)[i] == word[i];
      }
    }
  }

  lemma {:induction false} TrimStartExact(front: string, core: string)
    requires Blank(front) && core != "" && !IsWhitespace(core[0])
    ensures TrimStart(front + core) == core
    decreases |front|
  {
    if front == "" {
      assert front + core == core;
    } else {
      assert (front + core)[1..] == front[1..] + core;
      TrimStartExact(front[1..], core);
    }
  }

  lemma {:induction false} TrimEndExact(core: string, back: string)
    requires Blank(back) && core != "" && !IsWhitespace(core[|core| - 1])
    ensures TrimEnd(core + back) == core
    decreases |back|
  {
    if back == "" {
      assert core + back == core;
    } else {
      var n := |back| - 1;
      assert (core + back)[..|core + back| - 1] == core + back[..n];
      TrimEndExact(core, back[..n]);
    }
  }

  lemma TrimExact(front: string, core: string, back: string)
    requires Blank(front) && Blank(back) && core != "" && !IsWhitespace(core[0]) && !IsWhitespace(core[|core| - 1])
    ensures Trim(front + core + back) == core
  {
    assert front + core + back == front + (core + back) && (core + back)[0] == core[0];
    TrimStartExact(front, core + back);
    TrimEndExact(core, back);
  }

  /** What may follow a line's value: blanks, and after those a comment. */
  predicate Ending(back: string, comment: string) {
    Blank(back) && (comment != "" ==> comment[0] == '#' && back != "" && IsAsciiWhitespace(back[|back| - 1]))
  }

  lemma StripsEnding(line: string, back: string, comment: string)
    requires '#' !in line + back && Ending(back, comment)
    ensures StripComment(line + back + comment) == line + back
  {
    var front := line + back;
    if comment == "" {
      assert front + comment == front;
      assert CommentStart(front) == |front|;
    } else {
      assert front + comment == front + "#" + comment[1..];
      CommentExact(front, comment[1..]);
    }
  }

  /** The value stands for `text`: as it is, or in quotes. */
  predicate Denotes(value: string, text: string) {
    value == "\"" + text + "\"" || (value == text && !(|text| >= 2 && text[0] == '"' && text[|text| - 1] == '"'))
  }

  lemma DenotesExact(value: string, text: string)
    requires Plain(value) && Denotes(value, text)
    ensures Unquote(value) == text
  {
    if value == "\"" + text + "\"" {
      UnquotesBack(text);
    } else {
      assert "" + value + "" == value;
      TrimExact("", value, "");
    }
  }

  lemma Keywords()
    ensures Lowercase("host") == "host" && Lowercase("match") == "match" && Lowercase("hostname") == "hostname"
    ensures Lowercase("user") == "user" && Lowercase("port") == "port" && Lowercase("identityfile") == "identityfile"
  {
  }

  /** Of the printable characters, the space and the equals sign separate, and only the space is blank; so is a tab. */
  lemma SeparatorsExact(c: char)
    ensures ' ' <= c <= '~' ==> (IsSeparator(c) <==> c == ' ' || c == '=') && (IsWhitespace(c) <==> c == ' ')
    ensures ' ' <= c <= '~' ==> (IsAsciiWhitespace(c) <==> c == ' ')
    ensures c == '\t' ==> IsSeparator(c) && IsWhitespace(c) && IsAsciiWhitespace(c)
    ensures IsAsciiWhitespace(c) ==> IsWhitespace(c)
  {
  }

  /** A line with a keyword, separators and a value, with blanks before, blanks and a comment behind. */
  lemma LineSplits(front: string, keyword: string, separators: string, value: string, back: string, comment: string)
    requires Blank(front) && Ending(back, comment)
    requires keyword != "" && forall i :: 0 <= i < |keyword| ==> !IsSeparator(keyword[i])
    requires separators != "" && forall i :: 0 <= i < |separators| ==> IsSeparator(separators[i])
    requires Plain(value) && '#' !in front + keyword + separators + value + back
    ensures var line := Trim(StripComment(front + keyword + separators + value + back + comment));
      line != "" && SplitKeyword(line) == Some((keyword, value))
  {
    var core := keyword + separators + value;
    assert front + keyword + separators + value == front + core;
    StripsEnding(front + core, back, comment);
    TrimExact(front, core, back);
    SplitsBack(keyword, separators, value);
  }

  /**
   What each keyword means. Whatever its letters' case, whatever blanks and equals signs follow it, quoted or not, and
   whatever blanks and comment end the line: the value goes where the keyword says, and to no other place; a keyword
   that is none of these says nothing.
   */
  lemma LineMeans(front: string, keyword: string, separators: string, value: string, text: string, back: string,
                  comment: string)
    requires Blank(front) && Ending(back, comment)
    requires keyword != "" && forall i :: 0 <= i < |keyword| ==> !IsSeparator(keyword[i])
    requires separators != "" && forall i :: 0 <= i < |separators| ==> IsSeparator(separators[i])
    requires Plain(value) && Denotes(value, text) && '#' !in front + keyword + separators + value + back
    ensures var d := Parse(front + keyword + separators + value + back + comment);
      && (Spelled(keyword, "hostname") ==> d == HostName(text))
      && (Spelled(keyword, "user") ==> d == User(text))
      && (Spelled(keyword, "port") ==> d == Port(text))
      && (Spelled(keyword, "identityfile") ==> d == IdentityFile(text))
      && (Spelled(keyword, "host") ==> d == HostBlock(value))
      && (Spelled(keyword, "match") ==> d == MatchBlock)
      && (!Spelled(keyword, "hostname") && !Spelled(keyword, "user") && !Spelled(keyword, "port")
          && !Spelled(keyword, "identityfile") && !Spelled(keyword, "host") && !Spelled(keyword, "match") ==>
            d == Nothing)
  {
    LineSplits(front, keyword, separators, value, back, comment);
    DenotesExact(value, text);
    Keywords();
    SpelledExact(keyword, "hostname");
    SpelledExact(keyword, "user");
    SpelledExact(keyword, "port");
    SpelledExact(keyword, "identityfile");
    SpelledExact(keyword, "host");
    SpelledExact(keyword, "match");
    hide StripComment, Trim, SplitKeyword, Unquote, Lowercase, Spelled, Denotes, Plain, Ending;
  }

  lemma {:induction false} TrimBlank(s: string)
    requires Blank(s)
    ensures Trim(s) == ""
    decreases |s|
  {
    if s != "" { TrimBlank(s[1..]); }
  }

  /** Blank lines, comment lines and a keyword by itself say nothing. */
  lemma LineSaysNothing(front: string, comment: string, keyword: string)
    requires Blank(front) && (comment != "" ==> comment[0] == '#')
    requires front != "" ==> IsAsciiWhitespace(front[|front| - 1])
    requires keyword != "" && forall i :: 0 <= i < |keyword| ==> !IsSeparator(keyword[i]) && keyword[i] != '#'
    ensures Parse(front + comment) == Nothing && Parse(front + keyword) == Nothing
  {
    assert !IsWhitespace('#');
    assert '#' !in front;
    if front == "" && comment != "" {
      assert StripComment(front + comment) == "" by { assert (front + comment)[0] == '#'; }
    } else {
      assert front + comment == "" + front + comment && "" + front == front;
      StripsEnding("", front, comment);
    }
    TrimBlank(front);
    TrimBlank("");
    assert front + keyword == front + keyword + "" && front + keyword + "" + "" == front + keyword;
    StripsEnding(front + keyword, "", "");
    TrimExact(front, keyword, "");
    KeywordAlone(keyword);
    hide StripComment, Trim, SplitKeyword;
  }

  lemma KeywordAlone(keyword: string)
    requires keyword != "" && forall i :: 0 <= i < |keyword| ==> !IsSeparator(keyword[i])
    ensures SplitKeyword(keyword).None?
  {
    KeywordEndExact(keyword, "");
    assert keyword + "" == keyword;
  }
}
