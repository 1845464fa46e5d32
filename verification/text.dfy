/** The string operations of Rust's standard library that the program applies to
    user input and to server text: `trim`, `to_lowercase`, `split_whitespace`,
    `split('+')`, `contains` and `str::parse::<u32>`. */
module Text {
  import opened Wrappers

  /** Characters with the Unicode White_Space property, the set `char::is_whitespace` accepts. */
  predicate IsWhitespace(c: char) {
    || c == ' ' || c == '\t' || c == '\n' || c == '\r' || c == '\U{B}' || c == '\U{C}'
    || c == '\U{85}' || c == '\U{A0}' || c == '\U{1680}' || ('\U{2000}' <= c <= '\U{200A}')
    || c == '\U{2028}' || c == '\U{2029}' || c == '\U{202F}' || c == '\U{205F}' || c == '\U{3000}'
  }

  predicate AllWhitespace(s: string) {
    forall i :: 0 <= i < |s| ==> IsWhitespace(s[i])
  }

  predicate NoWhitespace(s: string) {
    forall i :: 0 <= i < |s| ==> !IsWhitespace(s[i])
  }

  /** `trim_start`: the suffix left after dropping leading whitespace. */
  function TrimStart(s: string): (r: string)
    ensures |r| <= |s| && r == s[|s| - |r|..]
    ensures AllWhitespace(s[..|s| - |r|])
    ensures r == [] || !IsWhitespace(r[0])
    decreases |s|
  {
    if |s| > 0 && IsWhitespace(s[0]) then TrimStart(s[1..]) else s
  }

  /** `trim_end`: the prefix left after dropping trailing whitespace. */
  function TrimEnd(s: string): (r: string)
    ensures |r| <= |s| && r == s[..|r|]
    ensures AllWhitespace(s[|r|..])
    ensures r == [] || !IsWhitespace(r[|r| - 1])
    decreases |s|
  {
    if |s| > 0 && IsWhitespace(s[|s| - 1]) then TrimEnd(s[..|s| - 1]) else s
  }

  /** `trim`: whitespace removed from both ends. The result is empty exactly
      when the input is blank. */
  function Trim(s: string): (r: string)
    ensures r == [] <==> AllWhitespace(s)
    ensures r == [] || (!IsWhitespace(r[0]) && !IsWhitespace(r[|r| - 1]))
  {
    var t := TrimStart(s);
    if t == [] then []
    else
      assert t[0] == s[|s| - |t|];
      TrimEnd(t)
  }

  /** A string that `trim` leaves alone: empty, or with non-whitespace at both ends. */
  predicate Trimmed(x: string) {
    x == [] || (!IsWhitespace(x[0]) && !IsWhitespace(x[|x| - 1]))
  }

  lemma {:induction false} TrimStartPadded(p: string, y: string)
    requires AllWhitespace(p)
    requires y == [] || !IsWhitespace(y[0])
    ensures TrimStart(p + y) == y
    decreases |p|
  {
    if p != [] {
      assert (p + y)[1..] == p[1..] + y;
      TrimStartPadded(p[1..], y);
    }
  }

  lemma {:induction false} TrimEndPadded(y: string, q: string)
    requires AllWhitespace(q)
    requires y == [] || !IsWhitespace(y[|y| - 1])
    ensures TrimEnd(y + q) == y
    decreases |q|
  {
    if q != [] {
      assert (y + q)[..|y + q| - 1] == y + q[..|q| - 1];
      TrimEndPadded(y, q[..|q| - 1]);
    }
  }

  /** `trim` strips exactly the whitespace padding: surrounding a trimmed string
      with any whitespace and trimming gives the string back. */
  lemma {:induction false} TrimPadded(p: string, x: string, q: string)
    requires AllWhitespace(p) && AllWhitespace(q) && Trimmed(x)
    ensures Trim(p + x + q) == x
  {
    if x == [] {
      assert AllWhitespace(p + x + q) by {
        forall i | 0 <= i < |p + x + q|
          ensures IsWhitespace((p + x + q)[i])
        {
          if i >= |p| { assert (p + x + q)[i] == q[i - |p|]; }
        }
      }
    } else {
      assert p + x + q == p + (x + q);
      TrimStartPadded(p, x + q);
      TrimEndPadded(x, q);
    }
  }

  /** `char::to_lowercase` on the characters whose lower case is a single ASCII
      letter: A-Z, and KELVIN SIGN, which lower-cases to 'k'. */
  function LowerChar(c: char): char {
    if 'A' <= c <= 'Z' then (c as int - 'A' as int + 'a' as int) as char
    else if c == '\U{212A}' then 'k'
    else c
  }

  /** `to_lowercase`: each capital A-Z becomes its small letter, KELVIN SIGN
      becomes 'k', no upper-case ASCII letter survives, and every other ASCII
      character is kept in place. */
  function ToLower(s: string): (r: string)
    ensures |r| == |s|
    ensures forall i :: 0 <= i < |r| ==> !('A' <= r[i] <= 'Z')
    ensures forall i :: 0 <= i < |s| && 'A' <= s[i] <= 'Z' ==> r[i] == (s[i] as int - 'A' as int + 'a' as int) as char
    ensures forall i :: 0 <= i < |s| && s[i] == '\U{212A}' ==> r[i] == 'k'
    ensures forall i :: 0 <= i < |s| && s[i] < '\U{80}' && !('A' <= s[i] <= 'Z') ==> r[i] == s[i]
  {
    seq(|s|, i requires 0 <= i < |s| => LowerChar(s[i]))
  }

  /** A lower-case ASCII word: what the program compares lowered answers with. */
  predicate LowerAscii(w: string) {
    forall i :: 0 <= i < |w| ==> w[i] < '\U{80}' && !('A' <= w[i] <= 'Z')
  }

  /** `x` spells `w` up to case: every character is `w`'s own, its capital, or
      (for 'k') KELVIN SIGN. */
  predicate SpellsUpToCase(x: string, w: string) {
    && |x| == |w|
    && forall i :: 0 <= i < |x| ==>
         || x[i] == w[i]
         || ('a' <= w[i] <= 'z' && x[i] == (w[i] as int - 'a' as int + 'A' as int) as char)
         || (w[i] == 'k' && x[i] == '\U{212A}')
  }

  /** An answer lower-cases to a lower-case ASCII word exactly when it spells
      that word in any mix of cases, so "Y" is taken like "y" and nothing else is. */
  lemma LowerMatchesWord(x: string, w: string)
    requires LowerAscii(w)
    ensures ToLower(x) == w <==> SpellsUpToCase(x, w)
  {
  }

  /** `trim().to_lowercase()`, the normalisation the program applies to every answer it reads. */
  function Normalize(s: string): string {
    ToLower(Trim(s))
  }

  /** An answer surrounded by whitespace normalises to the lower case of the answer itself. */
  lemma {:induction false} NormalizePadded(p: string, x: string, q: string)
    requires AllWhitespace(p) && AllWhitespace(q) && Trimmed(x)
    ensures Normalize(p + x + q) == ToLower(x)
  {
    TrimPadded(p, x, q);
  }

  /** Length of the run of non-whitespace characters at the front of `s`. */
  function TokenEnd(s: string): (n: nat)
    ensures n <= |s|
    ensures NoWhitespace(s[..n])
    ensures n == |s| || IsWhitespace(s[n])
    decreases |s|
  {
    if |s| == 0 || IsWhitespace(s[0]) then 0 else 1 + TokenEnd(s[1..])
  }

  /** `split_whitespace`: the maximal runs of non-whitespace characters, in order.
      Every token is non-empty and holds no whitespace; there are none exactly
      when the input is blank. */
  function SplitWhitespace(s: string): (r: seq<string>)
    ensures WellFormedTokens(r)
    ensures r == [] <==> AllWhitespace(s)
    decreases |s|
  {
    var t := TrimStart(s);
    if t == [] then
      assert s[..|s|] == s;
      []
    else
      assert t[0] == s[|s| - |t|];
      var n := TokenEnd(t);
      var rest := SplitWhitespace(t[n..]);
      WellFormedCons(t[..n], rest);
      [t[..n]] + rest
  }

  /** Tokens joined by single spaces. */
  function JoinSpaces(tokens: seq<string>): string
    decreases |tokens|
  {
    if |tokens| == 0 then ""
    else if |tokens| == 1 then tokens[0]
    else tokens[0] + (" " + JoinSpaces(tokens[1..]))
  }

  lemma {:induction false} TokenEndOfJoin(x: string, y: string)
    requires NoWhitespace(x)
    requires y == [] || IsWhitespace(y[0])
    ensures TokenEnd(x + y) == |x|
    decreases |x|
  {
    if x != [] {
      assert (x + y)[1..] == x[1..] + y;
      TokenEndOfJoin(x[1..], y);
    }
  }

  /** A leading token followed by whitespace (or nothing) is split off first. */
  lemma {:induction false} SplitWhitespaceFirstToken(x: string, y: string)
    requires x != [] && NoWhitespace(x)
    requires y == [] || IsWhitespace(y[0])
    ensures SplitWhitespace(x + y) == [x] + SplitWhitespace(y)
  {
    var s := x + y;
    assert TrimStart(s) == s;
    TokenEndOfJoin(x, y);
    assert s[..|x|] == x;
    assert s[|x|..] == y;
  }

  lemma SplitWhitespaceSingle(t: string)
    requires t != [] && NoWhitespace(t)
    ensures SplitWhitespace(t) == [t]
  {
    assert TrimStart(t) == t;
    TokenEndOfJoin(t, []);
    assert t + [] == t;
    assert t[..|t|] == t;
    assert AllWhitespace(t[|t|..]);
  }

  lemma {:induction false} TrimStartSkipsWhitespace(w: string, y: string)
    requires AllWhitespace(w)
    ensures TrimStart(w + y) == TrimStart(y)
    decreases |w|
  {
    if w == [] {
      assert w + y == y;
    } else {
      assert (w + y)[0] == w[0] && (w + y)[1..] == w[1..] + y;
      TrimStartSkipsWhitespace(w[1..], y);
    }
  }

  /** Leading whitespace, of any length and kind, yields no token. */
  lemma SplitWhitespaceSkipsWhitespace(w: string, y: string)
    requires AllWhitespace(w)
    ensures SplitWhitespace(w + y) == SplitWhitespace(y)
  {
    TrimStartSkipsWhitespace(w, y);
  }

  /** A token between any leading whitespace and a non-empty whitespace run is
      the first token, and splitting carries on after the run. */
  lemma SplitWhitespaceRun(p: string, x: string, w: string, y: string)
    requires AllWhitespace(p) && x != [] && NoWhitespace(x)
    requires w != [] && AllWhitespace(w)
    ensures SplitWhitespace(p + x + w + y) == [x] + SplitWhitespace(y)
  {
    var a := w + y;
    var b := x + a;
    assert p + x + w + y == p + b;
    assert SplitWhitespace(p + b) == SplitWhitespace(b) by {
      SplitWhitespaceSkipsWhitespace(p, b);
    }
    assert SplitWhitespace(b) == [x] + SplitWhitespace(a) by {
      assert a[0] == w[0];
      SplitWhitespaceFirstToken(x, a);
    }
    assert SplitWhitespace(a) == SplitWhitespace(y) by {
      SplitWhitespaceSkipsWhitespace(w, y);
    }
  }

  lemma SplitWhitespaceConsToken(t: string, rest: string)
    requires t != [] && NoWhitespace(t)
    ensures SplitWhitespace(t + (" " + rest)) == [t] + SplitWhitespace(rest)
  {
    SplitWhitespaceFirstToken(t, " " + rest);
    SplitWhitespaceSkipsWhitespace(" ", rest);
  }

  /** Tokens with a whitespace run after each: `tokens[0] + seps[0] + tokens[1] + seps[1] + ...`. */
  function JoinRuns(tokens: seq<string>, seps: seq<string>): string
    requires |seps| == |tokens|
    decreases |tokens|
  {
    if |tokens| == 0 then "" else tokens[0] + (seps[0] + JoinRuns(tokens[1..], seps[1..]))
  }

  /** Whitespace runs that can separate tokens: all whitespace, and non-empty
      except possibly the trailing one. */
  predicate Separators(seps: seq<string>) {
    forall k :: 0 <= k < |seps| ==> AllWhitespace(seps[k]) && (k + 1 < |seps| ==> seps[k] != [])
  }

  /** `s` is `p + JoinRuns(tokens, seps)`, with `p` leading whitespace. */
  predicate LaidOut(s: string, p: string, tokens: seq<string>, seps: seq<string>) {
    && |seps| == |tokens|
    && AllWhitespace(p)
    && WellFormedTokens(tokens)
    && Separators(seps)
    && s == p + JoinRuns(tokens, seps)
  }

  lemma SeparatorsTail(seps: seq<string>)
    requires |seps| > 0 && Separators(seps)
    ensures AllWhitespace(seps[0]) && Separators(seps[1..])
    ensures |seps| > 1 ==> seps[0] != []
  {
    assert forall k :: 0 <= k < |seps[1..]| ==> seps[1..][k] == seps[k + 1];
  }

  /** `split_whitespace` returns exactly the tokens of any layout: leading
      whitespace, then tokens separated by whitespace runs of any length and
      kind, with optional trailing whitespace. */
  lemma {:induction false} SplitJoinRuns(p: string, tokens: seq<string>, seps: seq<string>)
    requires |seps| == |tokens|
    requires AllWhitespace(p) && WellFormedTokens(tokens) && Separators(seps)
    ensures SplitWhitespace(p + JoinRuns(tokens, seps)) == tokens
    decreases |tokens|
  {
    if |tokens| == 0 {
      assert p + JoinRuns(tokens, seps) == p;
    } else {
      WellFormedSplit(tokens);
      SeparatorsTail(seps);
      SplitJoinRuns([], tokens[1..], seps[1..]);
      assert [] + JoinRuns(tokens[1..], seps[1..]) == JoinRuns(tokens[1..], seps[1..]);
      SplitJoinRunsStep(p, tokens, seps);
    }
  }

  /** The inductive step of `SplitJoinRuns`: the first token comes off the front. */
  lemma SplitJoinRunsStep(p: string, tokens: seq<string>, seps: seq<string>)
    requires |seps| == |tokens| && |tokens| > 0
    requires AllWhitespace(p) && tokens[0] != [] && NoWhitespace(tokens[0]) && AllWhitespace(seps[0])
    requires |tokens| > 1 ==> seps[0] != []
    requires SplitWhitespace(JoinRuns(tokens[1..], seps[1..])) == tokens[1..]
    ensures SplitWhitespace(p + JoinRuns(tokens, seps)) == tokens
  {
    JoinRunsCons(p, tokens, seps);
    HeadTail(tokens);
    if |tokens| == 1 {
      SplitLastRun(p, tokens[0], seps[0], JoinRuns(tokens[1..], seps[1..]));
    } else {
      SplitWhitespaceRun(p, tokens[0], seps[0], JoinRuns(tokens[1..], seps[1..]));
    }
  }

  lemma AppendEmpty<T>(xs: seq<T>, ys: seq<T>)
    requires ys == []
    ensures xs + ys == xs
  {
  }

  lemma SplitAt<T>(xs: seq<T>, n: nat)
    requires n <= |xs|
    ensures xs == xs[..n] + xs[n..]
  {
  }

  lemma HeadTail<T>(xs: seq<T>)
    requires |xs| > 0
    ensures xs == [xs[0]] + xs[1..]
    ensures |xs| == 1 ==> xs == [xs[0]]
  {
  }

  lemma RegroupLast(p: string, x: string, w: string, y: string)
    requires y == []
    ensures p + x + w + y == p + (x + w)
  {
  }

  /** The last token, with trailing whitespace after it. */
  lemma SplitLastRun(p: string, x: string, w: string, y: string)
    requires AllWhitespace(p) && x != [] && NoWhitespace(x) && AllWhitespace(w) && y == []
    ensures SplitWhitespace(p + x + w + y) == [x]
  {
    RegroupLast(p, x, w, y);
    SplitWhitespaceSkipsWhitespace(p, x + w);
    SplitTokenThenBlank(x, w);
  }

  lemma SplitTokenThenBlank(x: string, w: string)
    requires x != [] && NoWhitespace(x) && AllWhitespace(w)
    ensures SplitWhitespace(x + w) == [x]
  {
    var rest := SplitWhitespace(w);
    assert rest == [];
    assert SplitWhitespace(x + w) == [x] + rest by {
      SplitWhitespaceFirstToken(x, w);
    }
    assert [x] + rest == [x];
  }



  lemma JoinRunsCons(p: string, tokens: seq<string>, seps: seq<string>)
    requires |seps| == |tokens| && |tokens| > 0
    ensures p + JoinRuns(tokens, seps) == p + tokens[0] + seps[0] + JoinRuns(tokens[1..], seps[1..])
  {
  }

  lemma JoinRunsStartsWithToken(tokens: seq<string>, seps: seq<string>)
    requires |seps| == |tokens| && |tokens| > 0 && tokens[0] != []
    ensures JoinRuns(tokens, seps) != [] && JoinRuns(tokens, seps)[0] == tokens[0][0]
  {
  }

  /** The whitespace in front of the first token. */
  function LeadingSpace(s: string): (r: string)
    ensures AllWhitespace(r) && s == r + TrimStart(s)
  {
    var t := TrimStart(s);
    assert s == s[..|s| - |t|] + t;
    s[..|s| - |t|]
  }

  /** The whitespace run after each token of `split_whitespace`. */
  function Gaps(s: string): seq<string>
    decreases |s|
  {
    var t := TrimStart(s);
    if t == [] then []
    else
      var rest := t[TokenEnd(t)..];
      [LeadingSpace(rest)] + Gaps(rest)
  }

  /** Conversely, every string is laid out as its own tokens: the tokens of
      `split_whitespace`, put back with the whitespace between them, rebuild it. */
  lemma {:induction false} SplitWhitespaceRebuilds(s: string)
    ensures LaidOut(s, LeadingSpace(s), SplitWhitespace(s), Gaps(s))
    decreases |s|
  {
    var t := TrimStart(s);
    var p := LeadingSpace(s);
    if t == [] {
      assert SplitWhitespace(s) == [] && Gaps(s) == [];
      AppendEmpty(p, t);
      AppendEmpty(p, JoinRuns([], []));
    } else {
      var n := TokenEnd(t);
      var x, rest := t[..n], t[n..];
      SplitAt(t, n);
      assert SplitWhitespace(s) == [x] + SplitWhitespace(rest);
      assert Gaps(s) == [LeadingSpace(rest)] + Gaps(rest);
      SplitWhitespaceRebuilds(rest);
      RebuildStep(s, p, x, rest, LeadingSpace(rest), SplitWhitespace(rest), Gaps(rest));
    }
  }

  /** A token and the layout of what follows it lay out the whole string. */
  lemma RebuildStep(s: string, p: string, x: string, rest: string,
                    q: string, tokens: seq<string>, seps: seq<string>)
    requires s == p + (x + rest) && AllWhitespace(p)
    requires x != [] && NoWhitespace(x)
    requires rest == [] || IsWhitespace(rest[0])
    requires LaidOut(rest, q, tokens, seps)
    ensures LaidOut(s, p, [x] + tokens, [q] + seps)
  {
  }


  /** Non-empty tokens without whitespace, as `split_whitespace` produces them. */
  predicate WellFormedTokens(tokens: seq<string>) {
    forall i :: 0 <= i < |tokens| ==> tokens[i] != [] && NoWhitespace(tokens[i])
  }

  lemma WellFormedCons(x: string, rest: seq<string>)
    requires x != [] && NoWhitespace(x) && WellFormedTokens(rest)
    ensures WellFormedTokens([x] + rest)
  {
    assert forall i :: 1 <= i < |[x] + rest| ==> ([x] + rest)[i] == rest[i - 1];
  }

  lemma WellFormedSplit(tokens: seq<string>)
    requires |tokens| > 0 && WellFormedTokens(tokens)
    ensures tokens[0] != [] && NoWhitespace(tokens[0])
    ensures WellFormedTokens(tokens[1..])
  {
    assert forall i :: 0 <= i < |tokens[1..]| ==> tokens[1..][i] == tokens[i + 1];
  }

  lemma JoinSpacesCons(tokens: seq<string>)
    requires |tokens| > 1
    ensures JoinSpaces(tokens) == tokens[0] + (" " + JoinSpaces(tokens[1..]))
  {
  }

  lemma SplitJoinSingle(t: string)
    requires t != [] && NoWhitespace(t)
    ensures SplitWhitespace(JoinSpaces([t])) == [t]
  {
    assert JoinSpaces([t]) == t;
    SplitWhitespaceSingle(t);
  }

  lemma SplitJoinCons(tokens: seq<string>)
    requires |tokens| > 1 && tokens[0] != [] && NoWhitespace(tokens[0])
    requires SplitWhitespace(JoinSpaces(tokens[1..])) == tokens[1..]
    ensures SplitWhitespace(JoinSpaces(tokens)) == tokens
  {
    JoinSpacesCons(tokens);
    SplitWhitespaceConsToken(tokens[0], JoinSpaces(tokens[1..]));
    assert [tokens[0]] + tokens[1..] == tokens;
  }

  /** `split_whitespace` undoes joining well-formed tokens with spaces. */
  lemma {:induction false} SplitJoinSpaces(tokens: seq<string>)
    requires WellFormedTokens(tokens)
    ensures SplitWhitespace(JoinSpaces(tokens)) == tokens
    decreases |tokens|
  {
    if |tokens| == 0 {
      assert JoinSpaces(tokens) == "";
    } else if |tokens| == 1 {
      WellFormedSplit(tokens);
      assert tokens == [tokens[0]];
      SplitJoinSingle(tokens[0]);
    } else {
      WellFormedSplit(tokens);
      SplitJoinSpaces(tokens[1..]);
      SplitJoinCons(tokens);
    }
  }

  lemma {:induction false} JoinSpacesStartsWithToken(tokens: seq<string>)
    requires |tokens| > 0 && tokens[0] != [] && NoWhitespace(tokens[0])
    ensures JoinSpaces(tokens) != [] && !IsWhitespace(JoinSpaces(tokens)[0])
  {
    if |tokens| > 1 {
      assert JoinSpaces(tokens)[0] == tokens[0][0];
    }
  }

  /** Pieces joined by one separator character. */
  function JoinWith(parts: seq<string>, sep: char): string
    requires |parts| >= 1
    decreases |parts|
  {
    if |parts| == 1 then parts[0] else parts[0] + [sep] + JoinWith(parts[1..], sep)
  }

  lemma JoinWithExtendHead(c: char, parts: seq<string>, sep: char)
    requires |parts| >= 1
    ensures JoinWith([[c] + parts[0]] + parts[1..], sep) == [c] + JoinWith(parts, sep)
  {
    var q := [[c] + parts[0]] + parts[1..];
    assert q[1..] == parts[1..];
  }

  /** `split(sep)`: always at least one piece, no piece holds the separator,
      and joining the pieces back with the separator gives the input. */
  function SplitOn(s: string, sep: char): (r: seq<string>)
    ensures |r| >= 1
    ensures forall i :: 0 <= i < |r| ==> sep !in r[i]
    ensures JoinWith(r, sep) == s
    decreases |s|
  {
    if |s| == 0 then [""]
    else
      var rest := SplitOn(s[1..], sep);
      if s[0] == sep then
        assert [""] + rest == [""] + rest;
        assert ([""] + rest)[1..] == rest;
        [""] + rest
      else
        JoinWithExtendHead(s[0], rest, sep);
        assert [s[0]] + s[1..] == s;
        [[s[0]] + rest[0]] + rest[1..]
  }

  lemma {:induction false} SplitOnWithoutSeparator(a: string, sep: char)
    requires sep !in a
    ensures SplitOn(a, sep) == [a]
    decreases |a|
  {
    if a != [] {
      SplitOnWithoutSeparator(a[1..], sep);
      assert [a[0]] + a[1..] == a;
    }
  }

  lemma {:induction false} SplitOnFirstPiece(a: string, rest: string, sep: char)
    requires sep !in a
    ensures SplitOn(a + [sep] + rest, sep) == [a] + SplitOn(rest, sep)
    decreases |a|
  {
    var s := a + [sep] + rest;
    if a == [] {
      assert s[1..] == rest;
    } else {
      assert s[1..] == a[1..] + [sep] + rest;
      SplitOnFirstPiece(a[1..], rest, sep);
      assert [a[0]] + a[1..] == a;
    }
  }

  /** `split(sep)` undoes joining separator-free pieces with `sep`. */
  lemma {:induction false} SplitJoinWith(parts: seq<string>, sep: char)
    requires |parts| >= 1
    requires forall i :: 0 <= i < |parts| ==> sep !in parts[i]
    ensures SplitOn(JoinWith(parts, sep), sep) == parts
    decreases |parts|
  {
    if |parts| == 1 {
      SplitOnWithoutSeparator(parts[0], sep);
    } else {
      SplitOnFirstPiece(parts[0], JoinWith(parts[1..], sep), sep);
      SplitJoinWith(parts[1..], sep);
      assert [parts[0]] + parts[1..] == parts;
    }
  }

  function Last<T>(s: seq<T>): T
    requires |s| > 0
  {
    s[|s| - 1]
  }

  /** `pat` occurs in `s` starting at index `i`. */
  ghost predicate OccursAt(s: string, pat: string, i: int) {
    0 <= i && i + |pat| <= |s| && s[i..i + |pat|] == pat
  }

  /** `str::contains`: whether `pat` occurs in `s` at some position. */
  predicate Contains(s: string, pat: string)
    decreases |s|
  {
    (|pat| <= |s| && s[..|pat|] == pat) || (|s| > 0 && Contains(s[1..], pat))
  }

  lemma {:induction false} ContainsSound(s: string, pat: string)
    requires Contains(s, pat)
    ensures exists i :: OccursAt(s, pat, i)
    decreases |s|
  {
    if |pat| <= |s| && s[..|pat|] == pat {
      assert OccursAt(s, pat, 0);
    } else {
      ContainsSound(s[1..], pat);
      var i :| OccursAt(s[1..], pat, i);
      assert s[1..][i..i + |pat|] == s[i + 1..i + 1 + |pat|];
      assert OccursAt(s, pat, i + 1);
    }
  }

  lemma {:induction false} ContainsComplete(s: string, pat: string, i: int)
    requires OccursAt(s, pat, i)
    ensures Contains(s, pat)
    decreases i
  {
    if i > 0 {
      assert s[1..][i - 1..i - 1 + |pat|] == s[i..i + |pat|];
      ContainsComplete(s[1..], pat, i - 1);
    }
  }

  /** The scan agrees with the definition of an occurrence, in both directions. */
  lemma ContainsIffOccurs(s: string, pat: string)
    ensures Contains(s, pat) <==> exists i :: OccursAt(s, pat, i)
  {
    if Contains(s, pat) {
      ContainsSound(s, pat);
    }
    if i :| OccursAt(s, pat, i) {
      ContainsComplete(s, pat, i);
    }
  }

  const U32_MAX: int := 0xFFFF_FFFF

  /** The values of Rust's `u32`. */
  type U32 = n: int | 0 <= n <= U32_MAX

  predicate IsDigit(c: char) {
    '0' <= c <= '9'
  }

  predicate AllDigits(s: string) {
    forall i :: 0 <= i < |s| ==> IsDigit(s[i])
  }

  /** The value of a string of decimal digits, most significant first. */
  function DigitsValue(d: string): nat
    requires AllDigits(d)
    decreases |d|
  {
    if |d| == 0 then 0
    else 10 * DigitsValue(d[..|d| - 1]) + (d[|d| - 1] as int - '0' as int)
  }

  /** `str::parse::<u32>()` in radix 10: an optional leading '+', then at least
      one ASCII digit, and a value that fits in 32 bits. */
  function ParseU32(s: string): Option<U32> {
    var digits := if |s| > 0 && s[0] == '+' then s[1..] else s;
    if |digits| == 0 || !AllDigits(digits) then None
    else
      var v := DigitsValue(digits);
      if v <= U32_MAX then Some(v) else None
  }

  /** The shortest decimal rendering of `n`; reading it back gives `n`. */
  function DecimalString(n: nat): (r: string)
    ensures |r| >= 1 && AllDigits(r) && r[0] != '+'
    ensures DigitsValue(r) == n
    decreases n
  {
    var last := ('0' as int + n % 10) as char;
    if n < 10 then
      assert [last][..0] == [];
      [last]
    else
      var prefix := DecimalString(n / 10);
      assert (prefix + [last])[..|prefix|] == prefix;
      prefix + [last]
  }

  /** Parsing a rendered `u32` gives the number back. */
  lemma ParseU32RoundTrip(n: U32)
    ensures ParseU32(DecimalString(n)) == Some(n)
  {
  }

  /** A decimal number beyond 32 bits is rejected. */
  lemma ParseU32RejectsOverflow(n: nat)
    requires n > U32_MAX
    ensures ParseU32(DecimalString(n)) == None
  {
  }

  /** A string that holds a character other than a digit, beyond a single leading
      '+', is rejected; so are the empty string and a bare '+'. */
  lemma ParseU32RejectsNonDigits(s: string)
    requires || s == []
             || s == "+"
             || (exists i :: 0 < i < |s| && !IsDigit(s[i]))
             || (|s| > 0 && s[0] != '+' && !IsDigit(s[0]))
    ensures ParseU32(s) == None
  {
    if |s| > 0 && s[0] == '+' {
      if i :| 0 < i < |s| && !IsDigit(s[i]) {
        assert !IsDigit(s[1..][i - 1]);
      }
    }
  }
}
