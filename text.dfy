/**
 * The string primitives the bot relies on: Python's `str.isspace`,
 * `str.lower`, `str.split()`, `str.strip()`, `str.startswith` and
 * `str(int)`, stated over Dafny strings.
 */
module Text {

  /** Python's `str.isspace` for a single character. */
  predicate IsSpace(c: char)
  {
    var n := c as int;
    || 0x09 <= n <= 0x0D || 0x1C <= n <= 0x20 || n == 0x85 || n == 0xA0
    || n == 0x1680 || 0x2000 <= n <= 0x200A || n == 0x2028 || n == 0x2029
    || n == 0x202F || n == 0x205F || n == 0x3000
  }

  predicate NoSpace(s: string)
  {
    forall i :: 0 <= i < |s| ==> !IsSpace(s[i])
  }

  predicate AllSpace(s: string)
  {
    forall i :: 0 <= i < |s| ==> IsSpace(s[i])
  }

  predicate IsUpper(c: char)
  {
    'A' <= c <= 'Z'
  }

  function LowerChar(c: char): (r: char)
    ensures !IsUpper(r)
    ensures IsUpper(c) ==> r as int == c as int + 32
    ensures !IsUpper(c) ==> r == c
  {
    if IsUpper(c) then (c as int + 32) as char else c
  }

  /** `str.lower`, restricted to ASCII letters. */
  function Lower(s: string): (r: string)
    ensures |r| == |s|
    ensures forall i :: 0 <= i < |s| ==> r[i] == LowerChar(s[i])
  {
    if s == [] then [] else [LowerChar(s[0])] + Lower(s[1..])
  }

  predicate IsLowered(s: string)
  {
    forall i :: 0 <= i < |s| ==> !IsUpper(s[i])
  }

  lemma LowerIsLowered(s: string)
    ensures IsLowered(Lower(s))
    ensures Lower(Lower(s)) == Lower(s)
  {
    assert forall i :: 0 <= i < |s| ==> LowerChar(LowerChar(s[i])) == LowerChar(s[i]);
  }

  lemma LowerAppend(a: string, b: string)
    ensures Lower(a + b) == Lower(a) + Lower(b)
  {
  }

  /** Lower-casing leaves whitespace alone and never creates or removes it. */
  lemma LowerKeepsSpace(s: string)
    ensures AllSpace(s) ==> Lower(s) == s
    ensures NoSpace(s) ==> NoSpace(Lower(s))
  {
  }

  /** Every word lower-cased. */
  function LowerAll(ws: seq<string>): (r: seq<string>)
    ensures |r| == |ws| && forall k :: 0 <= k < |ws| ==> r[k] == Lower(ws[k])
  {
    if ws == [] then [] else [Lower(ws[0])] + LowerAll(ws[1..])
  }

  lemma {:induction false} LowerJoin(ws: seq<string>, seps: seq<string>)
    requires Gaps(ws, seps)
    ensures Lower(Join(ws, seps)) == Join(LowerAll(ws), seps)
    decreases |ws|
  {
    if |ws| > 1 {
      LowerAppend(ws[0] + seps[0], Join(ws[1..], seps[1..]));
      LowerAppend(ws[0], seps[0]);
      LowerKeepsSpace(seps[0]);
      LowerJoin(ws[1..], seps[1..]);
      assert LowerAll(ws)[1..] == LowerAll(ws[1..]);
    }
  }

  /** Length of the longest prefix of `s` without whitespace. */
  function WordLen(s: string): (n: nat)
    ensures n <= |s|
    ensures NoSpace(s[..n])
    ensures n < |s| ==> IsSpace(s[n])
  {
    if s == [] || IsSpace(s[0]) then 0 else 1 + WordLen(s[1..])
  }

  /**
   * `str.split()` without arguments: the maximal runs of non-whitespace
   * characters, in order; runs of whitespace separate them and leading or
   * trailing whitespace yields no empty token.
   */
  function Split(s: string): (r: seq<string>)
    ensures forall k :: 0 <= k < |r| ==> |r[k]| > 0 && NoSpace(r[k])
    ensures Flatten(r) == NonSpace(s)
    decreases |s|
  {
    if s == [] then []
    else if IsSpace(s[0]) then Split(s[1..])
    else
      var n := WordLen(s);
      assert s == s[..n] + s[n..];
      NonSpaceAppend(s[..n], s[n..]);
      NonSpaceOfNoSpace(s[..n]);
      [s[..n]] + Split(s[n..])
  }

  function Flatten(ws: seq<string>): string
  {
    if ws == [] then [] else ws[0] + Flatten(ws[1..])
  }

  /** The characters of `s` that are not whitespace, in order. */
  function NonSpace(s: string): string
  {
    if s == [] then [] else (if IsSpace(s[0]) then [] else [s[0]]) + NonSpace(s[1..])
  }

  lemma {:induction false} NonSpaceAppend(a: string, b: string)
    ensures NonSpace(a + b) == NonSpace(a) + NonSpace(b)
  {
    if a != [] {
      assert (a + b)[0] == a[0];
      assert (a + b)[1..] == a[1..] + b;
      NonSpaceAppend(a[1..], b);
    } else {
      assert a + b == b;
    }
  }

  lemma {:induction false} NonSpaceOfNoSpace(a: string)
    requires NoSpace(a)
    ensures NonSpace(a) == a
  {
    if a != [] {
      NonSpaceOfNoSpace(a[1..]);
    }
  }

  /** Whitespace in front of a string never produces a token. */
  lemma {:induction false} SplitLeadingSpace(w: string, s: string)
    requires AllSpace(w)
    ensures Split(w + s) == Split(s)
    decreases |w|
  {
    if w != [] {
      assert (w + s)[0] == w[0];
      assert (w + s)[1..] == w[1..] + s;
      SplitLeadingSpace(w[1..], s);
    } else {
      assert w + s == s;
    }
  }

  /** A word followed by a whitespace character is a token of its own. */
  lemma {:induction false} WordLenOfWord(w: string, rest: string)
    requires NoSpace(w)
    requires rest == [] || IsSpace(rest[0])
    ensures WordLen(w + rest) == |w|
    decreases |w|
  {
    if w != [] {
      assert (w + rest)[1..] == w[1..] + rest;
      WordLenOfWord(w[1..], rest);
    }
  }

  /** The words `ws` with `seps[k]` written between `ws[k]` and `ws[k + 1]`. */
  function Join(ws: seq<string>, seps: seq<string>): string
    requires |ws| <= |seps| + 1
  {
    if ws == [] then []
    else if |ws| == 1 then ws[0]
    else ws[0] + seps[0] + Join(ws[1..], seps[1..])
  }

  /** One non-empty run of whitespace between each pair of neighbouring words. */
  predicate Gaps(ws: seq<string>, seps: seq<string>)
  {
    && (if ws == [] then seps == [] else |seps| == |ws| - 1)
    && forall k :: 0 <= k < |seps| ==> |seps[k]| > 0 && AllSpace(seps[k])
  }

  /** Non-empty words without whitespace. */
  predicate Words(ws: seq<string>)
  {
    forall k :: 0 <= k < |ws| ==> |ws[k]| > 0 && NoSpace(ws[k])
  }

  /** A word followed by whitespace or nothing is split off as one token. */
  lemma SplitWord(w: string, rest: string)
    requires |w| > 0 && NoSpace(w)
    requires rest == [] || IsSpace(rest[0])
    ensures Split(w + rest) == [w] + Split(rest)
  {
    WordLenOfWord(w, rest);
    assert (w + rest)[0] == w[0];
    assert (w + rest)[..|w|] == w;
    assert (w + rest)[|w|..] == rest;
  }

  /**
   * `split()` inverts joining words with whitespace: whatever run of
   * whitespace separates each pair of words, and whatever spacing surrounds
   * them, the words come back.
   */
  lemma {:induction false} SplitJoin(ws: seq<string>, seps: seq<string>, pre: string, post: string)
    requires Words(ws) && Gaps(ws, seps) && AllSpace(pre) && AllSpace(post)
    ensures Split(pre + Join(ws, seps) + post) == ws
  {
    var body := Join(ws, seps) + post;
    assert pre + Join(ws, seps) + post == pre + body;
    SplitLeadingSpace(pre, body);
    SplitJoinBody(ws, seps, post);
  }

  lemma {:induction false} SplitJoinBody(ws: seq<string>, seps: seq<string>, post: string)
    requires Words(ws) && Gaps(ws, seps) && AllSpace(post)
    ensures Split(Join(ws, seps) + post) == ws
    decreases |ws|
  {
    var body := Join(ws, seps) + post;
    if ws == [] {
      assert body == post + [];
      SplitLeadingSpace(post, []);
    } else if |ws| == 1 {
      SplitWord(ws[0], post);
      assert post == post + [];
      SplitLeadingSpace(post, []);
    } else {
      SplitJoinStep(ws, seps, post);
      GapsTail(ws, seps);
      SplitJoinBody(ws[1..], seps[1..], post);
    }
  }

  /** The first word of a joined sequence of at least two words is split off alone. */
  lemma SplitJoinStep(ws: seq<string>, seps: seq<string>, post: string)
    requires |ws| > 1 && Words(ws) && Gaps(ws, seps) && AllSpace(post)
    ensures Split(Join(ws, seps) + post) == [ws[0]] + Split(Join(ws[1..], seps[1..]) + post)
  {
    var w, gap, more := ws[0], seps[0], Join(ws[1..], seps[1..]);
    GapsTail(ws, seps);
    assert Join(ws, seps) == w + gap + more;
    var tail := more + post;
    var rest := gap + tail;
    Regroup(w, gap, more, post);
    assert rest[0] == gap[0];
    SplitWord(w, rest);
    SplitLeadingSpace(gap, tail);
  }

  lemma Regroup(a: string, b: string, c: string, d: string)
    ensures a + b + c + d == a + (b + (c + d))
  {
  }

  lemma GapsTail(ws: seq<string>, seps: seq<string>)
    requires |ws| > 1 && Words(ws) && Gaps(ws, seps)
    ensures Words(ws[1..]) && Gaps(ws[1..], seps[1..])
    ensures |ws[0]| > 0 && NoSpace(ws[0]) && |seps[0]| > 0 && AllSpace(seps[0])
  {
    assert forall k :: 0 <= k < |ws[1..]| ==> ws[1..][k] == ws[k + 1];
    assert forall k :: 0 <= k < |seps[1..]| ==> seps[1..][k] == seps[k + 1];
  }

  /** `s` is the words `ws`, the gaps `seps` between them, and whitespace `pre` and `post` around them. */
  predicate SpacedAs(s: string, ws: seq<string>, pre: string, seps: seq<string>, post: string)
  {
    Gaps(ws, seps) && AllSpace(pre) && AllSpace(post) && s == pre + Join(ws, seps) + post
  }

  /**
   * Every string has that form with `ws` its own tokens, so SplitJoin pins
   * `split()` down on all inputs: the tokens are the maximal runs.
   */
  lemma {:induction false} SplitCovers(s: string)
    ensures exists pre, seps, post :: SpacedAs(s, Split(s), pre, seps, post)
    decreases |s|
  {
    if s == [] {
      assert SpacedAs(s, Split(s), [], [], []);
    } else if IsSpace(s[0]) {
      SplitCovers(s[1..]);
      var pre, seps, post :| SpacedAs(s[1..], Split(s[1..]), pre, seps, post);
      CoversSpace(s[0], s[1..], Split(s[1..]), pre, seps, post);
      assert s == [s[0]] + s[1..];
      assert Split(s) == Split(s[1..]);
    } else {
      var n := WordLen(s);
      var w, rest := s[..n], s[n..];
      assert s == w + rest;
      assert Split(s) == [w] + Split(rest);
      SplitCovers(rest);
      var pre, seps, post :| SpacedAs(rest, Split(rest), pre, seps, post);
      CoversWord(s, w, rest, Split(rest), pre, seps, post);
    }
  }

  /** A word, then a string of the form with tokens `ws` that starts with whitespace unless it is empty. */
  lemma CoversWord(s: string, w: string, rest: string, ws: seq<string>, pre: string, seps: seq<string>, post: string)
    requires s == w + rest && Words(ws) && SpacedAs(rest, ws, pre, seps, post)
    requires rest == [] || IsSpace(rest[0])
    ensures exists pre', seps', post' :: SpacedAs(s, [w] + ws, pre', seps', post')
  {
    if ws == [] {
      CoversWordAlone(w, rest, pre, seps, post);
      assert SpacedAs(s, [w] + ws, [], [], pre + post);
    } else {
      assert rest != [] by {
        assert Join(ws, seps)[0] == ws[0][0];
      }
      CoversWordThen(w, rest, ws, pre, seps, post);
      assert SpacedAs(s, [w] + ws, [], [pre] + seps, post);
    }
  }

  lemma CoversSpace(c: char, rest: string, ws: seq<string>, pre: string, seps: seq<string>, post: string)
    requires IsSpace(c) && SpacedAs(rest, ws, pre, seps, post)
    ensures SpacedAs([c] + rest, ws, [c] + pre, seps, post)
  {
    SpaceThenSpace(c, pre);
    var j := Join(ws, seps);
    assert [c] + rest == [c] + (pre + j + post) == ([c] + pre) + j + post;
  }

  lemma SpaceThenSpace(c: char, pre: string)
    requires IsSpace(c) && AllSpace(pre)
    ensures AllSpace([c] + pre)
  {
    forall i | 0 <= i < |[c] + pre| ensures IsSpace(([c] + pre)[i]) {
      if i > 0 {
        assert ([c] + pre)[i] == pre[i - 1];
      }
    }
  }

  lemma CoversWordAlone(w: string, rest: string, pre: string, seps: seq<string>, post: string)
    requires SpacedAs(rest, [], pre, seps, post)
    ensures SpacedAs(w + rest, [w], [], [], pre + post)
  {
    assert rest == pre + post;
  }

  lemma CoversWordThen(w: string, rest: string, ws: seq<string>, pre: string, seps: seq<string>, post: string)
    requires ws != [] && Words(ws) && SpacedAs(rest, ws, pre, seps, post)
    requires IsSpace(rest[0])
    ensures SpacedAs(w + rest, [w] + ws, [], [pre] + seps, post)
  {
    assert Join(ws, seps)[0] == ws[0][0];
    assert pre != [];
    assert ([w] + ws)[1..] == ws && ([pre] + seps)[1..] == seps;
    assert Join([w] + ws, [pre] + seps) == w + pre + Join(ws, seps);
    forall k | 0 <= k < |[pre] + seps| ensures |([pre] + seps)[k]| > 0 && AllSpace(([pre] + seps)[k]) {
      if k > 0 {
        assert ([pre] + seps)[k] == seps[k - 1];
      }
    }
  }

  /** Tokens of a string without upper-case letters have none either. */
  lemma {:induction false} SplitLowered(s: string)
    requires IsLowered(s)
    ensures forall k :: 0 <= k < |Split(s)| ==> IsLowered(Split(s)[k])
    decreases |s|
  {
    if s != [] {
      if IsSpace(s[0]) {
        SplitLowered(s[1..]);
      } else {
        var n := WordLen(s);
        SplitLowered(s[n..]);
        assert Split(s) == [s[..n]] + Split(s[n..]);
      }
    }
  }

  /** `str.strip()` without arguments. */
  function Trim(s: string): (r: string)
    ensures r == [] || (!IsSpace(r[0]) && !IsSpace(r[|r| - 1]))
    ensures exists i, j :: 0 <= i <= j <= |s| && r == s[i..j] && AllSpace(s[..i]) && AllSpace(s[j..])
  {
    var t := TrimStart(s);
    var u := TrimEnd(t.1);
    assert s[t.0..][..u.0] == s[t.0..t.0 + u.0];
    assert s[t.0 + u.0..] == t.1[u.0..];
    u.1
  }

  function TrimStart(s: string): (r: (nat, string))
    ensures r.0 <= |s| && r.1 == s[r.0..] && AllSpace(s[..r.0])
    ensures r.1 == [] || !IsSpace(r.1[0])
  {
    if s != [] && IsSpace(s[0]) then
      var t := TrimStart(s[1..]);
      assert s[1..][..t.0] == s[1..1 + t.0];
      (t.0 + 1, t.1)
    else (0, s)
  }

  function TrimEnd(s: string): (r: (nat, string))
    ensures r.0 <= |s| && r.1 == s[..r.0] && AllSpace(s[r.0..])
    ensures r.1 == [] || !IsSpace(r.1[|r.1| - 1])
    ensures s != [] && !IsSpace(s[0]) ==> r.1 != [] && r.1[0] == s[0]
  {
    if s != [] && IsSpace(s[|s| - 1]) then
      var t := TrimEnd(s[..|s| - 1]);
      assert s[..|s| - 1][..t.0] == s[..t.0];
      assert AllSpace(s[t.0..]) by {
        forall i | 0 <= i < |s[t.0..]| ensures IsSpace(s[t.0..][i]) {
          if t.0 + i < |s| - 1 {
            assert s[t.0..][i] == s[..|s| - 1][t.0..][i];
          }
        }
      }
      (t.0, t.1)
    else (|s|, s)
  }

  predicate IsPrefix(p: string, s: string)
  {
    |p| <= |s| && s[..|p|] == p
  }

  predicate IsDigit(c: char)
  {
    '0' <= c <= '9'
  }

  function DigitChar(d: nat): (c: char)
    requires d < 10
    ensures IsDigit(c)
  {
    ('0' as int + d) as char
  }

  /** `str(n)` for a non-negative integer: decimal, no leading zeros. */
  function NatToString(n: nat): (r: string)
    ensures |r| > 0 && forall i :: 0 <= i < |r| ==> IsDigit(r[i])
    ensures |r| > 1 ==> r[0] != '0'
  {
    if n < 10 then [DigitChar(n)] else NatToString(n / 10) + [DigitChar(n % 10)]
  }

  /** `str(n)` for any integer. */
  function IntToString(n: int): (r: string)
    ensures n < 0 ==> |r| > 1 && r[0] == '-' && r[1..] == NatToString(-n)
    ensures n >= 0 ==> r == NatToString(n)
  {
    if n < 0 then "-" + NatToString(-n) else NatToString(n)
  }

  /** The value of a string of decimal digits; the inverse of NatToString. */
  function ParseNat(s: string): nat
    requires forall i :: 0 <= i < |s| ==> IsDigit(s[i])
  {
    if s == [] then 0
    else
      assert IsDigit(s[|s| - 1]);
      ParseNat(s[..|s| - 1]) * 10 + (s[|s| - 1] as int - '0' as int)
  }

  lemma {:induction false} ParseNatToString(n: nat)
    ensures ParseNat(NatToString(n)) == n
  {
    if n >= 10 {
      var s := NatToString(n);
      assert s[..|s| - 1] == NatToString(n / 10);
      ParseNatToString(n / 10);
    }
  }

  /** Distinct numbers have distinct decimal representations. */
  lemma NatToStringInjective(m: nat, n: nat)
    requires NatToString(m) == NatToString(n)
    ensures m == n
  {
    ParseNatToString(m);
    ParseNatToString(n);
  }
}
