/**
 * The command parser of ubotvk/utils.py: `command_in_string` removes VK
 * mention markup, lower-cases, splits into words, drops one `/` or `!`
 * prefix and accepts the word list when its first word is a command.
 */
module Utils {
  import opened Wrappers
  import opened Text

  /** Length of the longest prefix of `s` made of ASCII digits. */
  function DigitRun(s: string): (n: nat)
    ensures n <= |s|
    ensures forall i :: 0 <= i < n ==> IsDigit(s[i])
    ensures n < |s| ==> !IsDigit(s[n])
  {
    if s == [] || !IsDigit(s[0]) then 0 else 1 + DigitRun(s[1..])
  }

  /** Length of the first line of `s`: the characters before the first newline. */
  function LineLen(s: string): (n: nat)
    ensures n <= |s|
    ensures forall i :: 0 <= i < n ==> s[i] != '\n'
    ensures n < |s| ==> s[n] == '\n'
  {
    if s == [] || s[0] == '\n' then 0 else 1 + LineLen(s[1..])
  }

  /** The position of the last occurrence of `c` in `s`. */
  function LastIndexOf(s: string, c: char): (r: Option<nat>)
    ensures r.None? ==> forall i :: 0 <= i < |s| ==> s[i] != c
    ensures r.Some? ==> r.value < |s| && s[r.value] == c
    ensures r.Some? ==> forall i :: r.value < i < |s| ==> s[i] != c
  {
    if s == [] then None
    else if s[|s| - 1] == c then Some(|s| - 1)
    else LastIndexOf(s[..|s| - 1], c)
  }

  /**
   * `t` is matched whole by the pattern `\[id\d+\|.*\]`: the text `[id`, one
   * or more digits, `|`, any characters but a newline, and `]`. The digits
   * are necessarily the maximal digit run after `[id`, as `|` is no digit.
   */
  predicate IsMention(t: string)
  {
    && IsPrefix("[id", t)
    && var d := DigitRun(t[3..]);
    && d > 0 && 4 + d < |t| && t[3 + d] == '|' && t[|t| - 1] == ']'
    && forall i :: 4 + d <= i < |t| - 1 ==> t[i] != '\n'
  }

  /**
   * The length of the match of `\[id\d+\|.*\]` at the start of `s`. As `.*`
   * is greedy, it is the longest prefix of `s` that is a mention; there is
   * a match exactly when some prefix is a mention.
   */
  function MentionAt(s: string): (r: Option<nat>)
    ensures r.Some? ==> 0 < r.value <= |s| && IsMention(s[..r.value])
    ensures forall m :: 0 <= m <= |s| && IsMention(s[..m]) ==> r.Some? && m <= r.value
  {
    if !IsPrefix("[id", s) then
      NoPrefixInPrefixes("[id", s);
      None
    else
      var d := DigitRun(s[3..]);
      if d == 0 || 4 + d > |s| || s[3 + d] != '|' then
        MentionNeedsBar(s, d);
        None
      else
        var body := s[4 + d..];
        var line := body[..LineLen(body)];
        match LastIndexOf(line, ']')
        case None =>
          MentionEndsInLine(s, d, line);
          None
        case Some(j) =>
          MentionFound(s, d, line, j);
          MentionEndsInLine(s, d, line);
          Some(4 + d + j + 1)
  }

  /** A string that does not start with `p` has no prefix that does. */
  lemma NoPrefixInPrefixes(p: string, s: string)
    requires !IsPrefix(p, s)
    ensures forall m :: 0 <= m <= |s| ==> !IsPrefix(p, s[..m])
  {
    forall m | 0 <= m <= |s| ensures !IsPrefix(p, s[..m]) {
      if |p| <= m {
        assert s[..m][..|p|] == s[..|p|];
      }
    }
  }

  /** The digit run of a prefix that ends after a non-digit is the digit run of the whole. */
  lemma DigitRunOfPrefix(s: string, m: nat)
    requires m <= |s|
    requires DigitRun(s) < m
    ensures DigitRun(s[..m]) == DigitRun(s)
    decreases m
  {
    if s != [] && IsDigit(s[0]) {
      assert s[..m][1..] == s[1..][..m - 1];
      DigitRunOfPrefix(s[1..], m - 1);
    }
  }

  lemma MentionNeedsBar(s: string, d: nat)
    requires IsPrefix("[id", s) && d == DigitRun(s[3..])
    requires d == 0 || 4 + d > |s| || s[3 + d] != '|'
    ensures forall m :: 0 <= m <= |s| ==> !IsMention(s[..m])
  {
    forall m | 0 <= m <= |s| && IsMention(s[..m])
      ensures false
    {
      var t := s[..m];
      var dt := DigitRun(t[3..]);
      assert t[3..] == s[3..][..m - 3];
      assert s[3..][dt] == '|';
      DigitRunOfPrefix(s[3..], m - 3);
    }
  }

  /** Every mention prefix of `s` ends on the first line after the bar. */
  lemma MentionEndsInLine(s: string, d: nat, line: string)
    requires IsPrefix("[id", s) && d == DigitRun(s[3..]) && d > 0
    requires 4 + d <= |s| && s[3 + d] == '|'
    requires line == s[4 + d..][..LineLen(s[4 + d..])]
    ensures forall m :: 0 <= m <= |s| && IsMention(s[..m]) ==>
      m - 5 - d < |line| && line[m - 5 - d] == ']'
  {
    forall m | 0 <= m <= |s| && IsMention(s[..m])
      ensures m - 5 - d < |line| && line[m - 5 - d] == ']'
    {
      var t := s[..m];
      assert t[3..] == s[3..][..m - 3];
      var dt := DigitRun(t[3..]);
      assert s[3..][dt] == '|';
      DigitRunOfPrefix(s[3..], m - 3);
      assert dt == d;
      var body := s[4 + d..];
      var k := m - 5 - d;
      assert forall i :: 0 <= i < k ==> body[i] == t[4 + d + i];
      assert forall i :: 0 <= i <= k ==> body[i] != '\n';
    }
  }

  lemma MentionFound(s: string, d: nat, line: string, j: nat)
    requires IsPrefix("[id", s) && d == DigitRun(s[3..]) && d > 0
    requires 4 + d <= |s| && s[3 + d] == '|'
    requires line == s[4 + d..][..LineLen(s[4 + d..])]
    requires j < |line| && line[j] == ']'
    ensures IsMention(s[..4 + d + j + 1])
  {
    var t := s[..4 + d + j + 1];
    assert t[3..] == s[3..][..d + j + 2];
    DigitRunOfPrefix(s[3..], d + j + 2);
    assert t[|t| - 1] == line[j];
    forall i | 4 + d <= i < |t| - 1
      ensures t[i] != '\n'
    {
      assert t[i] == line[i - 4 - d];
    }
  }

  /**
   * `re.sub('\[id\d+\|.*\]', '', s)`: scanning from the left, every match is
   * deleted and the search resumes after it; other characters are kept.
   */
  function StripMentions(s: string): (r: string)
    ensures |r| <= |s|
    decreases |s|
  {
    if s == [] then []
    else
      match MentionAt(s)
      case Some(n) => StripMentions(s[n..])
      case None => [s[0]] + StripMentions(s[1..])
  }

  /** Text without `[` holds no mention and is left as it is. */
  lemma {:induction false} StripWithoutBracket(s: string)
    requires '[' !in s
    ensures StripMentions(s) == s
    decreases |s|
  {
    if s != [] {
      assert "[id"[0] == '[';
      assert !IsPrefix("[id", s) by {
        assert |s| >= 3 ==> s[..3][0] == s[0];
      }
      StripWithoutBracket(s[1..]);
    }
  }

  /** The markup `[id<digits>|<name>]` VK inserts for a mention. */
  function Mention(digits: string, name: string): string
  {
    "[id" + digits + "|" + name + "]"
  }

  lemma MentionChars(digits: string, name: string)
    ensures var t := Mention(digits, name);
      && |t| == |digits| + |name| + 5
      && t[..3] == "[id"
      && (forall k :: 0 <= k < |digits| ==> t[3 + k] == digits[k])
      && t[3 + |digits|] == '|'
      && (forall k :: 0 <= k < |name| ==> t[4 + |digits| + k] == name[k])
      && t[|t| - 1] == ']'
  {
  }

  lemma {:induction false} DigitRunExact(u: string, n: nat)
    requires n < |u| && !IsDigit(u[n])
    requires forall i :: 0 <= i < n ==> IsDigit(u[i])
    ensures DigitRun(u) == n
  {
    if n > 0 {
      DigitRunExact(u[1..], n - 1);
    }
  }

  /**
   * Removal is greedy: after `[id<digits>|`, everything up to the last `]`
   * of that line goes, including any further `]` in between.
   */
  lemma GreedyMention(digits: string, name: string, rest: string)
    requires |digits| > 0 && forall i :: 0 <= i < |digits| ==> IsDigit(digits[i])
    requires forall i :: 0 <= i < |name| ==> name[i] != '\n'
    requires forall k :: 0 <= k < |rest| && rest[k] == ']' ==>
      exists i :: 0 <= i < k && rest[i] == '\n'
    ensures StripMentions(Mention(digits, name) + rest) == StripMentions(rest)
  {
    var s := Mention(digits, name) + rest;
    var m := |digits| + |name| + 5;
    DigitsAfterId(digits, name, rest);
    FirstMentionIsMention(digits, name, s);
    var r := MentionAt(s);
    assert r.Some? && m <= r.value;
    if r.value > m {
      LongerMention(digits, name, rest, s, r.value);
    }
    assert s[m..] == rest;
    StripAtMention(s);
  }

  lemma DigitsAfterId(digits: string, name: string, rest: string)
    requires forall i :: 0 <= i < |digits| ==> IsDigit(digits[i])
    ensures DigitRun((Mention(digits, name) + rest)[3..]) == |digits|
  {
    MentionChars(digits, name);
    var u := (Mention(digits, name) + rest)[3..];
    assert forall i :: 0 <= i < |digits| ==> u[i] == digits[i];
    assert u[|digits|] == '|';
    DigitRunExact(u, |digits|);
  }

  /** A mention followed by text without brackets leaves exactly that text. */
  lemma StripLeadingMention(digits: string, name: string, rest: string)
    requires |digits| > 0 && forall i :: 0 <= i < |digits| ==> IsDigit(digits[i])
    requires '\n' !in name && '[' !in rest && ']' !in rest
    ensures StripMentions(Mention(digits, name) + rest) == rest
  {
    GreedyMention(digits, name, rest);
    StripWithoutBracket(rest);
  }

  lemma StripAtMention(s: string)
    requires MentionAt(s).Some?
    ensures StripMentions(s) == StripMentions(s[MentionAt(s).value..])
  {
  }

  lemma FirstMentionIsMention(digits: string, name: string, s: string)
    requires |digits| > 0
    requires forall i :: 0 <= i < |name| ==> name[i] != '\n'
    requires IsPrefix(Mention(digits, name), s)
    requires DigitRun(s[3..]) == |digits|
    ensures IsMention(s[..|digits| + |name| + 5])
  {
    MentionChars(digits, name);
    var m := |digits| + |name| + 5;
    var t := s[..m];
    assert t == Mention(digits, name);
    assert t[3..] == s[3..][..m - 3];
    DigitRunOfPrefix(s[3..], m - 3);
  }

  /** A mention prefix longer than the first one ends on a `]` of the first line of `rest`. */
  lemma LongerMention(digits: string, name: string, rest: string, s: string, n: nat)
    requires s == Mention(digits, name) + rest
    requires DigitRun(s[3..]) == |digits|
    requires |digits| + |name| + 5 < n <= |s| && IsMention(s[..n])
    ensures rest[n - 1 - (|digits| + |name| + 5)] == ']'
    ensures forall j :: 0 <= j < n - 1 - (|digits| + |name| + 5) ==> rest[j] != '\n'
  {
    MentionChars(digits, name);
    var m := |digits| + |name| + 5;
    var t := s[..n];
    assert t[3..] == s[3..][..n - 3];
    DigitRunOfPrefix(s[3..], n - 3);
    assert forall j :: 0 <= j < n - m ==> rest[j] == t[m + j];
  }

  /** The normalised word list: mentions removed, lower-cased, split on whitespace. */
  function Tokens(text: string): (r: seq<string>)
    ensures forall k :: 0 <= k < |r| ==> |r[k]| > 0 && NoSpace(r[k]) && IsLowered(r[k])
  {
    var lowered := Lower(StripMentions(text));
    LowerIsLowered(StripMentions(text));
    SplitLowered(lowered);
    Split(lowered)
  }

  predicate IsPrefixSymbol(c: char)
  {
    c == '/' || c == '!'
  }

  /**
   * `command_in_string(text, commands)`. The guard on the length of the first
   * word covers the membership test as well, so a one-character word is never
   * a command; one `/` or `!` is dropped from a longer first word.
   */
  function CommandInString(text: string, commands: seq<string>): (r: Option<seq<string>>)
    ensures |Tokens(text)| == 0 ==> r.None?
    ensures |Tokens(text)| > 0 && |Tokens(text)[0]| <= 1 ==> r.None?
    ensures r.Some? ==> |r.value| == |Tokens(text)| && r.value[0] in commands
    ensures r.Some? ==> r.value[1..] == Tokens(text)[1..]
    ensures r.Some? ==> forall k :: 0 <= k < |r.value| ==> |r.value[k]| > 0 && NoSpace(r.value[k]) && IsLowered(r.value[k])
    ensures var t := Tokens(text);
      |t| > 0 && |t[0]| > 1 && !IsPrefixSymbol(t[0][0]) ==> (r.Some? <==> t[0] in commands) && (r.Some? ==> r.value == t)
    ensures var t := Tokens(text);
      |t| > 0 && |t[0]| > 1 && IsPrefixSymbol(t[0][0]) ==> (r.Some? <==> t[0][1..] in commands) && (r.Some? ==> r.value[0] == t[0][1..])
  {
    var lst := Tokens(text);
    if |lst| > 0 && |lst[0]| > 1 then
      var first := if IsPrefixSymbol(lst[0][0]) then lst[0][1..] else lst[0];
      assert IsLowered(first) && NoSpace(first);
      if first in commands then Some([first] + lst[1..]) else None
    else None
  }

  lemma {:induction false} JoinAvoids(ws: seq<string>, seps: seq<string>, c: char)
    requires |ws| <= |seps| + 1
    requires (forall k :: 0 <= k < |seps| ==> c !in seps[k]) && forall k :: 0 <= k < |ws| ==> c !in ws[k]
    ensures c !in Join(ws, seps)
    decreases |ws|
  {
    if |ws| > 1 {
      JoinAvoids(ws[1..], seps[1..], c);
    }
  }

  /**
   * A message that starts with a mention and goes on with words separated by
   * whitespace normalises to those words in lower case, whatever the name in
   * the mention holds short of a newline.
   */
  lemma TokensAfterMention(digits: string, name: string, pre: string, words: seq<string>, seps: seq<string>, post: string)
    requires |digits| > 0 && forall i :: 0 <= i < |digits| ==> IsDigit(digits[i])
    requires '\n' !in name
    requires forall k :: 0 <= k < |words| ==> |words[k]| > 0 && NoSpace(words[k]) && '[' !in words[k] && ']' !in words[k]
    requires Gaps(words, seps) && AllSpace(pre) && AllSpace(post)
    ensures Tokens(Mention(digits, name) + pre + Join(words, seps) + post) == LowerAll(words)
  {
    var rest := pre + Join(words, seps) + post;
    assert Mention(digits, name) + pre + Join(words, seps) + post == Mention(digits, name) + rest;
    SpacedAvoidsBrackets(pre, words, seps, post);
    StripLeadingMention(digits, name, rest);
    LowerSpaced(pre, words, seps, post);
    SplitJoin(LowerAll(words), seps, pre, post);
  }

  lemma SpacedAvoidsBrackets(pre: string, words: seq<string>, seps: seq<string>, post: string)
    requires forall k :: 0 <= k < |words| ==> '[' !in words[k] && ']' !in words[k]
    requires Gaps(words, seps) && AllSpace(pre) && AllSpace(post)
    ensures '[' !in pre + Join(words, seps) + post && ']' !in pre + Join(words, seps) + post
  {
    forall k | 0 <= k < |seps| ensures '[' !in seps[k] && ']' !in seps[k] {
      assert AllSpace(seps[k]);
    }
    JoinAvoids(words, seps, '[');
    JoinAvoids(words, seps, ']');
  }

  /** Lower-casing spaced words lower-cases each word and keeps the spacing. */
  lemma LowerSpaced(pre: string, words: seq<string>, seps: seq<string>, post: string)
    requires Words(words) && Gaps(words, seps) && AllSpace(pre) && AllSpace(post)
    ensures Lower(pre + Join(words, seps) + post) == pre + Join(LowerAll(words), seps) + post
    ensures Words(LowerAll(words)) && Gaps(LowerAll(words), seps)
  {
    LowerAppend(pre + Join(words, seps), post);
    LowerAppend(pre, Join(words, seps));
    LowerKeepsSpace(pre);
    LowerKeepsSpace(post);
    LowerJoin(words, seps);
    forall k | 0 <= k < |words|
      ensures |LowerAll(words)[k]| > 0 && NoSpace(LowerAll(words)[k])
    {
      LowerKeepsSpace(words[k]);
    }
  }

  /** `'[id13515|Test] cmd test'` with commands `cmd`, `cmd2` gives `['cmd', 'test']`, and the like. */
  lemma MentionThenCommand(digits: string, name: string, pre: string, words: seq<string>, seps: seq<string>, post: string,
                           commands: seq<string>)
    requires |digits| > 0 && forall i :: 0 <= i < |digits| ==> IsDigit(digits[i])
    requires '\n' !in name
    requires forall k :: 0 <= k < |words| ==> |words[k]| > 0 && NoSpace(words[k]) && '[' !in words[k] && ']' !in words[k]
    requires Gaps(words, seps) && AllSpace(pre) && AllSpace(post)
    requires |words| > 0 && |words[0]| > 1 && !IsPrefixSymbol(words[0][0]) && Lower(words[0]) in commands
    ensures CommandInString(Mention(digits, name) + pre + Join(words, seps) + post, commands) == Some(LowerAll(words))
  {
    TokensAfterMention(digits, name, pre, words, seps, post);
  }

  /** `'[id777|Bot Name] /on pidors'` with commands `on`, `off` gives `['on', 'pidors']`, and the like. */
  lemma MentionThenPrefixedCommand(digits: string, name: string, pre: string, words: seq<string>, seps: seq<string>,
                                   post: string, commands: seq<string>)
    requires |digits| > 0 && forall i :: 0 <= i < |digits| ==> IsDigit(digits[i])
    requires '\n' !in name
    requires forall k :: 0 <= k < |words| ==> |words[k]| > 0 && NoSpace(words[k]) && '[' !in words[k] && ']' !in words[k]
    requires Gaps(words, seps) && AllSpace(pre) && AllSpace(post)
    requires |words| > 0 && |words[0]| > 1 && IsPrefixSymbol(words[0][0])
    ensures var r := CommandInString(Mention(digits, name) + pre + Join(words, seps) + post, commands);
      && (r.Some? <==> Lower(words[0])[1..] in commands)
      && (r.Some? ==> r.value == [Lower(words[0])[1..]] + LowerAll(words[1..]))
  {
    TokensAfterMention(digits, name, pre, words, seps, post);
    assert LowerAll(words)[1..] == LowerAll(words[1..]);
  }

  /** Only the first word decides whether a command was found. */
  lemma FirstWordDecides(a: string, b: string, commands: seq<string>)
    requires |Tokens(a)| > 0 && |Tokens(b)| > 0 && Tokens(a)[0] == Tokens(b)[0]
    ensures CommandInString(a, commands).Some? == CommandInString(b, commands).Some?
    ensures CommandInString(a, commands).Some? ==> CommandInString(a, commands).value[0] == CommandInString(b, commands).value[0]
  {
  }
}
