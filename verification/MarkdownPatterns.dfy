/**
 What the line patterns of the handbook generator accept, character by character: each pattern is
 said by where its parts end, and the scanning definitions are proved to find exactly that.
 */
module LinePatterns {
  import opened MarkdownLines

  /** The characters from `i` up to `j` all satisfy `p`. */
  ghost predicate Only(s: string, i: int, j: int, p: char -> bool) {
    0 <= i <= j <= |s| && forall k | i <= k < j :: p(s[k])
  }

  function Is(c: char): char -> bool {
    x => x == c
  }

  /** The character classes, by code point. */
  lemma CharacterClasses(c: char)
    ensures IsDigit(c) <==> 48 <= c as int <= 57
    ensures IsSpace(c) <==> c as int == 32 || 9 <= c as int <= 13
    ensures IsWord(c) <==> 48 <= c as int <= 57 || 65 <= c as int <= 90 || 97 <= c as int <= 122 || c as int == 95
    ensures IsLanguage(c) <==> IsWord(c) || c in "+-"
    ensures IsRuler(c) <==> IsSpace(c) || c in ":|-"
  {
  }

  // What the scanners find.

  lemma {:induction false} RunExactly(s: string, c: char)
    ensures Only(s, 0, Run(s, c), Is(c))
  {
    if s != "" && s[0] == c {
      RunExactly(s[1..], c);
      assert forall k | 1 <= k < Run(s, c) :: s[k] == s[1..][k - 1];
    }
  }

  lemma RunIs(s: string, c: char, n: nat)
    requires Only(s, 0, n, Is(c)) && (n < |s| ==> s[n] != c)
    ensures Run(s, c) == n
  {
    RunExactly(s, c);
  }

  lemma {:induction false} TrimLeftExactly(s: string)
    ensures Only(s, 0, |s| - |TrimLeft(s)|, IsSpace) && s[|s| - |TrimLeft(s)|..] == TrimLeft(s)
  {
    if s != "" && IsSpace(s[0]) {
      TrimLeftExactly(s[1..]);
      assert forall k | 1 <= k < |s| :: s[k] == s[1..][k - 1];
    }
  }

  lemma TrimLeftIs(s: string, n: nat)
    requires Only(s, 0, n, IsSpace) && (n < |s| ==> !IsSpace(s[n]))
    ensures TrimLeft(s) == s[n..]
  {
    hide IsSpace;
    TrimLeftExactly(s);
    var d := |s| - |TrimLeft(s)|;
    assert TrimLeft(s) != "" ==> TrimLeft(s)[0] == s[d];
  }

  lemma {:induction false} TrimRightExactly(s: string)
    ensures Only(s, |TrimRight(s)|, |s|, IsSpace) && s[..|TrimRight(s)|] == TrimRight(s)
    ensures TrimRight(s) != "" ==> !IsSpace(TrimRight(s)[|TrimRight(s)| - 1])
  {
    if s != "" && IsSpace(s[|s| - 1]) {
      TrimRightExactly(s[..|s| - 1]);
      assert forall k | 0 <= k < |s| - 1 :: s[k] == s[..|s| - 1][k];
    }
  }

  lemma {:induction false} DropLanguageExactly(s: string)
    ensures |DropLanguage(s)| <= |s|
    ensures Only(s, 0, |s| - |DropLanguage(s)|, IsLanguage) && s[|s| - |DropLanguage(s)|..] == DropLanguage(s)
    ensures DropLanguage(s) != "" ==> !IsLanguage(DropLanguage(s)[0])
  {
    if s != "" && IsLanguage(s[0]) {
      DropLanguageExactly(s[1..]);
      assert forall k | 1 <= k < |s| :: s[k] == s[1..][k - 1];
    }
  }

  lemma DropLanguageIs(s: string, n: nat)
    requires Only(s, 0, n, IsLanguage) && (n < |s| ==> !IsLanguage(s[n]))
    ensures DropLanguage(s) == s[n..]
  {
    hide IsLanguage;
    DropLanguageExactly(s);
    var d := |s| - |DropLanguage(s)|;
    assert DropLanguage(s) != "" ==> DropLanguage(s)[0] == s[d];
  }

  lemma {:induction false} DigitsExactly(s: string)
    ensures Only(s, 0, Digits(s), IsDigit) && (Digits(s) < |s| ==> !IsDigit(s[Digits(s)]))
  {
    if s != "" && IsDigit(s[0]) {
      DigitsExactly(s[1..]);
      assert forall k | 1 <= k < |s| :: s[k] == s[1..][k - 1];
    }
  }

  lemma {:induction false} WordsExactly(s: string)
    ensures Only(s, 0, Words(s), IsWord) && (Words(s) < |s| ==> !IsWord(s[Words(s)]))
  {
    if s != "" && IsWord(s[0]) {
      WordsExactly(s[1..]);
      assert forall k | 1 <= k < |s| :: s[k] == s[1..][k - 1];
    }
  }

  lemma OnlyInRest(s: string, d: nat, i: int, j: int, p: char -> bool)
    requires d <= |s| && 0 <= i
    ensures Only(s[d..], i, j, p) <==> Only(s, d + i, d + j, p)
  {
    if 0 <= i <= j <= |s| - d {
      forall k | i <= k < j ensures s[d..][k] == s[d + k] {}
      assert forall k | d + i <= k < d + j :: s[k] == s[d..][k - d];
    }
  }

  lemma AllSpaceIsOnly(s: string, d: nat)
    requires d <= |s|
    ensures AllSpace(s[d..]) <==> Only(s, d, |s|, IsSpace)
  {
    hide IsSpace;
    if AllSpace(s[d..]) {
      forall k | d <= k < |s| ensures IsSpace(s[k]) {
        assert s[d..][k - d] in s[d..];
      }
    }
    if Only(s, d, |s|, IsSpace) {
      forall c | c in s[d..] ensures IsSpace(c) {
        var k :| 0 <= k < |s| - d && s[d..][k] == c;
        assert s[d + k] == c;
      }
    }
  }

  // Fences: three or more backticks, space, a language, space.

  ghost predicate FencePattern(line: string) {
    exists n, a, b ::
      && n >= 3 && Only(line, 0, n, Is('`'))
      && Only(line, n, a, IsSpace) && Only(line, a, b, IsLanguage) && Only(line, b, |line|, IsSpace)
  }

  lemma FenceOpenExactly(line: string)
    ensures FenceOpen(line) <==> FencePattern(line)
  {
    hide IsSpace, IsLanguage;
    if FenceOpen(line) {
      OpenFitsFence(line);
    }
    if FencePattern(line) {
      var n: nat, a: nat, b: nat :|
        && n >= 3 && Only(line, 0, n, Is('`'))
        && Only(line, n, a, IsSpace) && Only(line, a, b, IsLanguage) && Only(line, b, |line|, IsSpace);
      FencePatternIsOpen(line, n, a, b);
    }
  }

  lemma OpenFitsFence(line: string)
    requires FenceOpen(line)
    ensures FencePattern(line)
  {
    hide IsSpace, IsLanguage, Only;
    var n := Run(line, '`');
    RunExactly(line, '`');
    var a := TrimmedFrom(line, n);
    var b := LanguageFrom(line, a);
    AllSpaceIsOnly(line, b);
  }

  /** Where the space from `n` on ends. */
  lemma TrimmedFrom(line: string, n: nat) returns (a: nat)
    requires n <= |line|
    ensures n <= a <= |line| && TrimLeft(line[n..]) == line[a..] && Only(line, n, a, IsSpace)
  {
    hide IsSpace;
    TrimLeftExactly(line[n..]);
    a := |line| - |TrimLeft(line[n..])|;
    OnlyInRest(line, n, 0, a - n, IsSpace);
    assert line[n..][a - n..] == line[a..];
  }

  lemma LanguageFrom(line: string, a: nat) returns (b: nat)
    requires a <= |line|
    ensures a <= b <= |line| && DropLanguage(line[a..]) == line[b..] && Only(line, a, b, IsLanguage)
  {
    hide IsLanguage;
    DropLanguageExactly(line[a..]);
    b := |line| - |DropLanguage(line[a..])|;
    OnlyInRest(line, a, 0, b - a, IsLanguage);
    assert line[a..][b - a..] == line[b..];
  }

  lemma FencePatternIsOpen(line: string, n: nat, a: nat, b: nat)
    requires n >= 3 && Only(line, 0, n, Is('`'))
    requires Only(line, n, a, IsSpace) && Only(line, a, b, IsLanguage) && Only(line, b, |line|, IsSpace)
    ensures FenceOpen(line)
  {
    hide IsSpace, IsLanguage;
    ClassesDiffer();
    RunIs(line, '`', n);
    if a < b {
      OnlyInRest(line, n, 0, a - n, IsSpace);
      assert line[n..][a - n] == line[a];
      TrimLeftIs(line[n..], a - n);
      assert line[n..][a - n..] == line[a..];
      OnlyInRest(line, a, 0, b - a, IsLanguage);
      assert b < |line| ==> line[a..][b - a] == line[b];
      DropLanguageIs(line[a..], b - a);
      assert line[a..][b - a..] == line[b..];
      AllSpaceIsOnly(line, b);
    } else {
      OnlyInRest(line, n, 0, |line| - n, IsSpace);
      TrimLeftIs(line[n..], |line| - n);
      assert line[n..][|line| - n..] == "";
      DropLanguageExactly("");
    }
  }

  lemma ClassesDiffer()
    ensures forall c | IsSpace(c) :: !IsLanguage(c) && !IsWord(c) && !IsDigit(c)
    ensures !IsSpace('`') && !IsLanguage('`') && !IsSpace('#') && !IsSpace('>') && !IsSpace('[') && !IsWord(']')
  {
  }

  ghost predicate ClosingPattern(line: string) {
    exists n :: n >= 3 && Only(line, 0, n, Is('`')) && Only(line, n, |line|, IsSpace)
  }

  lemma FenceCloseExactly(line: string)
    ensures FenceClose(line) <==> ClosingPattern(line)
  {
    hide IsSpace;
    ClassesDiffer();
    if FenceClose(line) {
      RunExactly(line, '`');
      AllSpaceIsOnly(line, Run(line, '`'));
    }
    if ClosingPattern(line) {
      var n: nat :| n >= 3 && Only(line, 0, n, Is('`')) && Only(line, n, |line|, IsSpace);
      RunIs(line, '`', n);
      AllSpaceIsOnly(line, n);
    }
  }

  // Headings: one to six `#`, a space, and the text without the space around it.

  /** `t` is `s` without the space at either end. */
  ghost predicate Trimmed(s: string, t: string) {
    && (exists i, j :: Only(s, 0, i, IsSpace) && 0 <= i <= j <= |s| && t == s[i..j] && Only(s, j, |s|, IsSpace))
    && (t != "" ==> !IsSpace(t[0]) && !IsSpace(t[|t| - 1]))
  }

  lemma StripExactly(s: string)
    ensures Trimmed(s, Strip(s))
  {
    hide IsSpace;
    var l := TrimLeft(s);
    var i, j := |s| - |l|, |s| - |l| + |TrimRight(l)|;
    TrimLeftExactly(s);
    TrimRightExactly(l);
    assert l == s[i..];
    OnlyInRest(s, i, |TrimRight(l)|, |l|, IsSpace);
    assert TrimRight(l) == l[..|TrimRight(l)|] == s[i..j];
    assert TrimRight(l) != "" ==> TrimRight(l)[0] == l[0];
  }

  ghost predicate IsHeading(line: string, level: nat, text: string) {
    && 1 <= level <= 6 && level < |line|
    && Only(line, 0, level, Is('#')) && IsSpace(line[level])
    && Trimmed(line[level..], text)
  }

  lemma TrimRightIs(s: string, n: nat)
    requires n <= |s| && Only(s, n, |s|, IsSpace) && (n > 0 ==> !IsSpace(s[n - 1]))
    ensures TrimRight(s) == s[..n]
  {
    hide IsSpace;
    TrimRightExactly(s);
    var r := TrimRight(s);
    assert r != "" ==> r[|r| - 1] == s[|r| - 1];
  }

  lemma StripIs(s: string, i: nat, j: nat)
    requires Only(s, 0, i, IsSpace) && i <= j && Only(s, j, |s|, IsSpace)
    requires i < j ==> !IsSpace(s[i]) && !IsSpace(s[j - 1])
    ensures Strip(s) == s[i..j]
  {
    hide IsSpace;
    if i < j {
      TrimLeftIs(s, i);
      OnlyInRest(s, i, j - i, |s| - i, IsSpace);
      assert s[i..][j - i - 1] == s[j - 1];
      TrimRightIs(s[i..], j - i);
      assert s[i..][..j - i] == s[i..j];
    } else {
      TrimLeftIs(s, |s|);
      TrimRightExactly("");
    }
  }

  /** Trimming has one result. */
  lemma TrimmedIsStrip(s: string, t: string)
    requires Trimmed(s, t)
    ensures t == Strip(s)
  {
    hide IsSpace;
    var i: nat, j: nat :| Only(s, 0, i, IsSpace) && i <= j <= |s| && t == s[i..j] && Only(s, j, |s|, IsSpace);
    assert t != "" ==> t[0] == s[i] && t[|t| - 1] == s[j - 1];
    StripIs(s, i, j);
  }

  lemma HeadingExactly(line: string, level: nat, text: string)
    ensures IsHeading(line, level, text) <==> level > 0 && HeadingLevel(line) == level && HeadingText(line) == text
  {
    hide IsSpace;
    ClassesDiffer();
    if IsHeading(line, level, text) {
      RunIs(line, '#', level);
      TrimmedIsStrip(line[level..], text);
    }
    if level > 0 && HeadingLevel(line) == level && HeadingText(line) == text {
      RunExactly(line, '#');
      StripExactly(line[level..]);
    }
  }

  // Rules: three or more of one mark, and space.

  ghost predicate RulePattern(line: string) {
    exists c | c in {'*', '-', '_'} :: Marks(line, c)
  }

  ghost predicate Marks(line: string, c: char) {
    && (forall k | 0 <= k < |line| :: line[k] == c || IsSpace(line[k]))
    && exists j, k :: 0 < j < k < |line| && line[0] == c && line[j] == c && line[k] == c
  }

  lemma FirstOf(s: string, c: char) returns (j: nat)
    requires c in s
    ensures j < |s| && s[j] == c && multiset(s[j + 1..])[c] == multiset(s)[c] - 1
  {
    j := 0;
    while s[j] != c
      invariant j < |s| && c in s[j..]
      invariant multiset(s[j..])[c] == multiset(s)[c]
      decreases |s| - j
    {
      assert s[j..] == [s[j]] + s[j + 1..];
      j := j + 1;
    }
    assert s[j..] == [s[j]] + s[j + 1..];
  }

  lemma RuleOfExactly(line: string, c: char)
    ensures RuleOf(line, c) <==> Marks(line, c)
  {
    hide IsSpace;
    if RuleOf(line, c) {
      forall k | 0 <= k < |line| ensures line[k] == c || IsSpace(line[k]) {
        assert line[k] in line;
      }
      assert line == [line[0]] + line[1..];
      var rest := line[1..];
      assert c in multiset(rest);
      var j := FirstOf(rest, c);
      var more := rest[j + 1..];
      assert c in multiset(more);
      var k := FirstOf(more, c);
      assert line[j + 1] == c && line[j + 1 + k + 1] == c;
    }
    if Marks(line, c) {
      var j, k :| 0 < j < k < |line| && line[0] == c && line[j] == c && line[k] == c;
      assert line == line[..j] + line[j..k] + line[k..];
      assert line[..j][0] in line[..j] && line[j..k][0] in line[j..k] && line[k..][0] in line[k..];
      assert multiset(line) == multiset(line[..j]) + multiset(line[j..k]) + multiset(line[k..]);
    }
  }

  lemma RuleExactly(line: string)
    ensures Rule(line) <==> RulePattern(line)
  {
    hide Marks, RuleOf;
    RuleOfExactly(line, '*');
    RuleOfExactly(line, '-');
    RuleOfExactly(line, '_');
  }

  // Quotes and callouts.

  ghost predicate QuotePattern(line: string) {
    exists n :: Only(line, 0, n, IsSpace) && n < |line| && line[n] == '>'
  }

  lemma QuoteExactly(line: string)
    ensures Quote(line) <==> QuotePattern(line)
  {
    hide IsSpace;
    ClassesDiffer();
    if Quote(line) {
      TrimLeftExactly(line);
    }
    if QuotePattern(line) {
      var n: nat :| Only(line, 0, n, IsSpace) && n < |line| && line[n] == '>';
      TrimLeftIs(line, n);
    }
  }

  /** What is behind the marker at `n`, less one space. */
  lemma UnquoteExactly(line: string, n: nat)
    requires Only(line, 0, n, IsSpace) && n < |line| && line[n] == '>'
    ensures Quote(line)
    ensures Unquote(line) ==
            if n + 1 < |line| && IsSpace(line[n + 1]) then line[n + 2..] else line[n + 1..]
  {
    hide IsSpace;
    ClassesDiffer();
    TrimLeftIs(line, n);
    assert line[n..][1..] == line[n + 1..];
  }

  ghost predicate CalloutPattern(line: string) {
    exists n: nat, m: nat :: CalloutAt(line, n, m)
  }

  /** The bracket opens at `n` and closes at `m`. */
  ghost predicate CalloutAt(line: string, n: nat, m: nat) {
    && line != "" && line[0] == '>' && Only(line, 1, n, IsSpace)
    && n + 2 < m < |line| && line[n] == '[' && line[n + 1] == '!'
    && Only(line, n + 2, m, IsWord) && line[m] == ']'
  }

  lemma CalloutExactly(line: string)
    ensures Callout(line) <==> CalloutPattern(line)
  {
    hide Callout, CalloutAt;
    if Callout(line) {
      CalloutFitsPattern(line);
    }
    if CalloutPattern(line) {
      var n: nat, m: nat :| CalloutAt(line, n, m);
      CalloutPatternFits(line, n, m);
    }
  }

  lemma CalloutFitsPattern(line: string)
    requires Callout(line)
    ensures CalloutPattern(line)
  {
    hide IsSpace, IsWord, Only;
    var n := TrimmedFrom(line, 1);
    var r := line[n..];
    assert r[0] == r[..2][0] && r[1] == r[..2][1];
    assert r[2..] == line[n + 2..];
    WordsExactly(r[2..]);
    OnlyInRest(line, n + 2, 0, Words(r[2..]), IsWord);
    assert CalloutAt(line, n, n + 2 + Words(r[2..]));
  }

  lemma CalloutPatternFits(line: string, n: nat, m: nat)
    requires CalloutAt(line, n, m)
    ensures Callout(line)
  {
    hide IsSpace, IsWord, Only, TrimLeft, Words;
    BracketOpens(line, n, m);
    BracketCloses(line, n, m);
    var r := line[n..];
    assert r[2..] == line[n + 2..];
    assert r[..2] == "[!";
  }

  lemma BracketOpens(line: string, n: nat, m: nat)
    requires CalloutAt(line, n, m)
    ensures n >= 1 && TrimLeft(line[1..]) == line[n..]
  {
    hide IsSpace, IsWord, TrimLeft;
    ClassesDiffer();
    OnlyInRest(line, 1, 0, n - 1, IsSpace);
    assert line[1..][n - 1] == line[n];
    TrimLeftIs(line[1..], n - 1);
  }

  lemma BracketCloses(line: string, n: nat, m: nat)
    requires CalloutAt(line, n, m)
    ensures Words(line[n + 2..]) == m - n - 2
  {
    hide IsSpace, IsWord, Words;
    ClassesDiffer();
    OnlyInRest(line, n + 2, 0, m - n - 2, IsWord);
    WordsIs(line[n + 2..], m - n - 2);
  }

  lemma WordsIs(s: string, n: nat)
    requires Only(s, 0, n, IsWord) && n < |s| && !IsWord(s[n])
    ensures Words(s) == n
  {
    hide IsWord;
    WordsExactly(s);
  }

  lemma DigitsIs(s: string, n: nat)
    requires Only(s, 0, n, IsDigit) && n < |s| && !IsDigit(s[n])
    ensures Digits(s) == n
  {
    hide IsDigit;
    DigitsExactly(s);
  }

  // The line under the head of a table: space, a bar if there is one, and columns with a bar between.

  ghost predicate SeparatorPattern(line: string) {
    exists a, b, k ::
      && Only(line, 0, a, IsSpace) && (b == a || (b == a + 1 && a < |line| && line[a] == '|'))
      && b < k < |line| && Only(line, b, k, IsRuler) && line[k] == '|' && Only(line, k + 1, |line|, IsRuler)
  }

  lemma SeparatorExactly(line: string)
    ensures Separator(line) <==> SeparatorPattern(line)
  {
    if Separator(line) {
      var k :| 1 <= k < |line| && line[k] == '|';
      forall x | 0 <= x < |line| ensures IsRuler(line[x]) {
        assert line[x] in line;
      }
      assert Only(line, 0, 0, IsSpace) && Only(line, 0, k, IsRuler) && Only(line, k + 1, |line|, IsRuler);
    }
    if SeparatorPattern(line) {
      var a: nat, b: nat, k: nat :|
        && Only(line, 0, a, IsSpace) && (b == a || (b == a + 1 && a < |line| && line[a] == '|'))
        && b < k < |line| && Only(line, b, k, IsRuler) && line[k] == '|' && Only(line, k + 1, |line|, IsRuler);
      forall c | c in line ensures IsRuler(c) {
        var x :| 0 <= x < |line| && line[x] == c;
        assert x < a || x == a || b <= x < k || x == k || k + 1 <= x;
      }
    }
  }

  // List items: space, a bullet or a number with a dot or parenthesis, and a space.

  ghost predicate ItemPattern(line: string) {
    exists a: nat, b: nat ::
      && Only(line, 0, a, IsSpace) && b < |line| && IsSpace(line[b])
      && (BulletAt(line, a, b) || NumberAt(line, a, b))
  }

  ghost predicate BulletAt(line: string, a: int, b: int) {
    0 <= a < |line| && b == a + 1 && line[a] in {'-', '*', '+'}
  }

  ghost predicate NumberAt(line: string, a: int, b: int) {
    0 <= a < b - 1 < |line| && Only(line, a, b - 1, IsDigit) && line[b - 1] in {'.', ')'}
  }

  lemma ItemExactly(line: string)
    ensures Item(line) <==> ItemPattern(line)
  {
    hide IsSpace;
    if Item(line) {
      var r := TrimLeft(line);
      var a := |line| - |r|;
      TrimLeftExactly(line);
      DigitsExactly(r);
      OnlyInRest(line, a, 0, Digits(r), IsDigit);
      assert BulletAt(line, a, a + Marker(r)) || NumberAt(line, a, a + Marker(r));
    }
    if ItemPattern(line) {
      var a: nat, b: nat :|
        && Only(line, 0, a, IsSpace) && b < |line| && IsSpace(line[b])
        && (BulletAt(line, a, b) || NumberAt(line, a, b));
      ItemPatternFits(line, a, b);
    }
  }

  lemma ItemPatternFits(line: string, a: nat, b: nat)
    requires Only(line, 0, a, IsSpace) && b < |line| && IsSpace(line[b])
    requires BulletAt(line, a, b) || NumberAt(line, a, b)
    ensures Item(line)
  {
    assert !IsSpace(line[a]);
    TrimLeftIs(line, a);
    var r := line[a..];
    if NumberAt(line, a, b) {
      OnlyInRest(line, a, 0, b - 1 - a, IsDigit);
      DigitsIs(r, b - 1 - a);
    }
  }
}
