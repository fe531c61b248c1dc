/**
 * The JavaScript string primitives the `/map` handler relies on:
 * `String.prototype.trim` and `String.prototype.split(/\s+/)`, both over the
 * one whitespace class that ECMAScript uses for `trim` and for the regular
 * expression escape `\s` (WhiteSpace together with LineTerminator).
 */
module JsText {

  /** ECMAScript WhiteSpace (TAB, VT, FF, ZWNBSP and every Zs character) and
      LineTerminator (LF, CR, LS, PS). All of them lie in the Basic
      Multilingual Plane, so UTF-16 code units and scalar values agree here. */
  function IsWhitespace(c: char): (b: bool)
    ensures b ==> c as int < 0x1_0000
  {
    var n := c as int;
    n == 0x09 || n == 0x0A || n == 0x0B || n == 0x0C || n == 0x0D
    || n == 0x20 || n == 0xA0 || n == 0x1680 || (0x2000 <= n <= 0x200A)
    || n == 0x2028 || n == 0x2029 || n == 0x202F || n == 0x205F
    || n == 0x3000 || n == 0xFEFF
  }

  predicate AllWhitespace(s: string) {
    forall i :: 0 <= i < |s| ==> IsWhitespace(s[i])
  }

  predicate NoWhitespace(s: string) {
    forall i :: 0 <= i < |s| ==> !IsWhitespace(s[i])
  }

  /** Neither empty nor starting or ending with whitespace: what `trim` leaves
      of a string that is not all whitespace. */
  predicate Trimmed(s: string) {
    s != [] && !IsWhitespace(s[0]) && !IsWhitespace(s[|s| - 1])
  }

  // ---------------------------------------------------------------------
  // trim

  /** Length of the leading run of whitespace. */
  function LeadingWs(s: string): (n: nat)
    ensures n <= |s|
    ensures forall i :: 0 <= i < n ==> IsWhitespace(s[i])
    ensures n == |s| || !IsWhitespace(s[n])
  {
    if s != [] && IsWhitespace(s[0]) then 1 + LeadingWs(s[1..]) else 0
  }

  /** Position just after the last non-whitespace character (0 if none). */
  function ContentEnd(s: string): (n: nat)
    ensures n <= |s|
    ensures forall i :: n <= i < |s| ==> IsWhitespace(s[i])
    ensures n == 0 || !IsWhitespace(s[n - 1])
  {
    if s != [] && IsWhitespace(s[|s| - 1]) then ContentEnd(s[..|s| - 1]) else |s|
  }

  /** `s.trimStart()`. */
  function TrimStart(s: string): string {
    s[LeadingWs(s)..]
  }

  /** `s.trimEnd()`. */
  function TrimEnd(s: string): string {
    s[..ContentEnd(s)]
  }

  /** `s.trim()`: whitespace removed at both ends. */
  function Trim(s: string): (r: string)
    ensures r == [] <==> AllWhitespace(s)
    ensures r == [] || Trimmed(r)
  {
    var r := TrimEnd(TrimStart(s));
    assert r == [] ==> LeadingWs(s) == |s|;
    assert r != [] ==> !IsWhitespace(s[LeadingWs(s)]);
    r
  }

  lemma {:induction false} LeadingWsOfPadded(w: string, t: string)
    requires AllWhitespace(w)
    requires t == [] || !IsWhitespace(t[0])
    ensures LeadingWs(w + t) == |w|
    decreases |w|
  {
    if w != [] {
      assert (w + t)[1..] == w[1..] + t;
      LeadingWsOfPadded(w[1..], t);
    }
  }

  lemma {:induction false} ContentEndOfPadded(t: string, w: string)
    requires AllWhitespace(w)
    requires t == [] || !IsWhitespace(t[|t| - 1])
    ensures ContentEnd(t + w) == |t|
    decreases |w|
  {
    if w != [] {
      assert (t + w)[..|t + w| - 1] == t + w[..|w| - 1];
      ContentEndOfPadded(t, w[..|w| - 1]);
    }
  }

  /** `trim` removes exactly the whitespace padding: whatever padding surrounds
      a string that is empty or starts and ends with non-whitespace, `trim`
      gives that string back. */
  lemma {:induction false} TrimOfPadded(w1: string, t: string, w2: string)
    requires AllWhitespace(w1) && AllWhitespace(w2)
    requires t == [] || Trimmed(t)
    ensures Trim(w1 + t + w2) == t
  {
    var s := w1 + t + w2;
    if t == [] {
      assert forall i :: 0 <= i < |s| ==> IsWhitespace(s[i]) by {
        forall i | 0 <= i < |s| ensures IsWhitespace(s[i]) {
          if i < |w1| { assert s[i] == w1[i]; }
          else { assert s[i] == w2[i - |w1|]; }
        }
      }
    } else {
      assert s == w1 + (t + w2);
      LeadingWsOfPadded(w1, t + w2);
      assert TrimStart(s) == t + w2;
      ContentEndOfPadded(t, w2);
      assert (t + w2)[..|t|] == t;
    }
  }

  lemma TrimOfTrimmed(t: string)
    requires t == [] || Trimmed(t)
    ensures Trim(t) == t
  {
    assert [] + t + [] == t;
    TrimOfPadded([], t, []);
  }

  lemma AllWhitespaceConcat(a: string, b: string)
    requires AllWhitespace(a) && AllWhitespace(b)
    ensures AllWhitespace(a + b)
  {
    forall i | 0 <= i < |a + b| ensures IsWhitespace((a + b)[i]) {
      if i < |a| { assert (a + b)[i] == a[i]; }
      else { assert (a + b)[i] == b[i - |a|]; }
    }
  }

  /** Every string is its trimmed core with whitespace padding around it. */
  lemma TrimDecompose(s: string) returns (pre: string, post: string)
    ensures AllWhitespace(pre) && AllWhitespace(post)
    ensures s == pre + Trim(s) + post
  {
    var t := TrimStart(s);
    pre := s[..LeadingWs(s)];
    post := t[ContentEnd(t)..];
    assert s == pre + t;
    assert t == Trim(s) + post;
  }

  /** Extra whitespace around a string does not change what `trim` gives. */
  lemma TrimUnderPadding(w1: string, s: string, w2: string)
    requires AllWhitespace(w1) && AllWhitespace(w2)
    ensures Trim(w1 + s + w2) == Trim(s)
  {
    var pre, post := TrimDecompose(s);
    var t := Trim(s);
    AllWhitespaceConcat(w1, pre);
    AllWhitespaceConcat(post, w2);
    assert w1 + s + w2 == (w1 + pre) + t + (post + w2);
    TrimOfPadded(w1 + pre, t, post + w2);
  }

  /** `trim` is idempotent. */
  lemma TrimIdempotent(s: string)
    ensures Trim(Trim(s)) == Trim(s)
  {
    TrimOfTrimmed(Trim(s));
  }

  // ---------------------------------------------------------------------
  // split(/\s+/)

  /** Length of the longest whitespace-free prefix. */
  function TokenLen(s: string): (n: nat)
    ensures n <= |s|
    ensures forall i :: 0 <= i < n ==> !IsWhitespace(s[i])
    ensures n == |s| || IsWhitespace(s[n])
  {
    if s == [] || IsWhitespace(s[0]) then 0 else 1 + TokenLen(s[1..])
  }

  /** `s.split(/\s+/)`: the pieces of `s` between maximal runs of whitespace,
      in order. As in JavaScript, a string that starts (ends) with whitespace
      yields an empty first (last) piece, and the empty string yields `[""]`. */
  function SplitWs(s: string): (r: seq<string>)
    ensures |r| >= 1
    decreases |s|
  {
    var n := TokenLen(s);
    if n == |s| then [s] else [s[..n]] + SplitWs(TrimStart(s[n..]))
  }

  /** `tokens.join("")`. */
  function Concat(tokens: seq<string>): string {
    if tokens == [] then [] else tokens[0] + Concat(tokens[1..])
  }

  /** `tokens.join(" ")`. */
  function JoinSpace(tokens: seq<string>): string {
    if tokens == [] then []
    else if |tokens| == 1 then tokens[0]
    else tokens[0] + " " + JoinSpace(tokens[1..])
  }

  /** `s` with every whitespace character deleted (reference definition,
      character by character). */
  function RemoveWs(s: string): string {
    if s == [] then []
    else if IsWhitespace(s[0]) then RemoveWs(s[1..])
    else [s[0]] + RemoveWs(s[1..])
  }

  /** `s` with every maximal run of whitespace replaced by one space
      (reference definition, character by character). */
  function Collapse(s: string): string
    decreases |s|
  {
    if s == [] then []
    else if IsWhitespace(s[0]) then " " + Collapse(TrimStart(s))
    else [s[0]] + Collapse(s[1..])
  }

  /** Number of words counted by a one-pass scanner: a word starts at every
      non-whitespace character that comes first or follows whitespace. */
  function WordsFrom(s: string, afterWs: bool): nat {
    if s == [] then 0
    else (if afterWs && !IsWhitespace(s[0]) then 1 else 0) + WordsFrom(s[1..], IsWhitespace(s[0]))
  }

  function WordCount(s: string): nat {
    WordsFrom(s, true)
  }

  // ----- helper facts, each following the recursion of one definition

  lemma {:induction false} RemoveWsToken(s: string)
    ensures RemoveWs(s) == s[..TokenLen(s)] + RemoveWs(s[TokenLen(s)..])
    decreases |s|
  {
    if s != [] && !IsWhitespace(s[0]) {
      RemoveWsToken(s[1..]);
      var n := TokenLen(s[1..]);
      assert s[1..][n..] == s[1 + n..];
      assert s[..1 + n] == [s[0]] + s[1..][..n];
    }
  }

  lemma {:induction false} RemoveWsTrimStart(s: string)
    ensures RemoveWs(TrimStart(s)) == RemoveWs(s)
    decreases |s|
  {
    if s != [] && IsWhitespace(s[0]) {
      RemoveWsTrimStart(s[1..]);
      assert s[1..][LeadingWs(s[1..])..] == s[LeadingWs(s)..];
    }
  }

  lemma {:induction false} RemoveWsSnoc(s: string, c: char)
    ensures RemoveWs(s + [c]) == RemoveWs(s) + (if IsWhitespace(c) then [] else [c])
    decreases |s|
  {
    if s == [] {
      assert s + [c] == [c];
    } else {
      assert (s + [c])[1..] == s[1..] + [c];
      RemoveWsSnoc(s[1..], c);
    }
  }

  lemma {:induction false} RemoveWsTrimEnd(s: string)
    ensures RemoveWs(TrimEnd(s)) == RemoveWs(s)
    decreases |s|
  {
    if s != [] && IsWhitespace(s[|s| - 1]) {
      var p := s[..|s| - 1];
      RemoveWsTrimEnd(p);
      assert ContentEnd(s) == ContentEnd(p);
      assert TrimEnd(s) == TrimEnd(p);
      assert s == p + [s[|s| - 1]];
      RemoveWsSnoc(p, s[|s| - 1]);
    } else {
      assert TrimEnd(s) == s;
    }
  }

  /** Deleting the whitespace after trimming is the same as deleting it from
      the original. */
  lemma RemoveWsTrim(s: string)
    ensures RemoveWs(Trim(s)) == RemoveWs(s)
  {
    RemoveWsTrimStart(s);
    RemoveWsTrimEnd(TrimStart(s));
  }

  lemma {:induction false} CollapseToken(s: string)
    ensures Collapse(s) == s[..TokenLen(s)] + Collapse(s[TokenLen(s)..])
    decreases |s|
  {
    if s != [] && !IsWhitespace(s[0]) {
      CollapseToken(s[1..]);
      var n := TokenLen(s[1..]);
      assert s[1..][n..] == s[1 + n..];
      assert s[..1 + n] == [s[0]] + s[1..][..n];
    }
  }

  lemma {:induction false} WordsToken(s: string, afterWs: bool)
    requires s != [] && !IsWhitespace(s[0])
    ensures WordsFrom(s, afterWs) == (if afterWs then 1 else 0) + WordsFrom(s[TokenLen(s)..], false)
    decreases |s|
  {
    if |s| > 1 && !IsWhitespace(s[1]) {
      WordsToken(s[1..], false);
      assert s[1..][TokenLen(s[1..])..] == s[TokenLen(s)..];
    }
  }

  lemma {:induction false} WordsTrimStart(s: string, afterWs: bool)
    requires s != [] && IsWhitespace(s[0])
    ensures WordsFrom(s, afterWs) == WordCount(TrimStart(s))
    decreases |s|
  {
    if |s| > 1 && IsWhitespace(s[1]) {
      WordsTrimStart(s[1..], true);
      assert s[1..][LeadingWs(s[1..])..] == s[LeadingWs(s)..];
    }
  }

  lemma {:induction false} WordsSnocBlank(s: string, c: char, afterWs: bool)
    requires IsWhitespace(c)
    ensures WordsFrom(s + [c], afterWs) == WordsFrom(s, afterWs)
    decreases |s|
  {
    if s == [] {
      assert s + [c] == [c];
    } else {
      assert (s + [c])[1..] == s[1..] + [c];
      WordsSnocBlank(s[1..], c, IsWhitespace(s[0]));
    }
  }

  lemma {:induction false} WordsTrimEnd(s: string)
    ensures WordCount(TrimEnd(s)) == WordCount(s)
    decreases |s|
  {
    if s != [] && IsWhitespace(s[|s| - 1]) {
      var p := s[..|s| - 1];
      WordsTrimEnd(p);
      assert ContentEnd(s) == ContentEnd(p);
      assert TrimEnd(s) == TrimEnd(p);
      assert s == p + [s[|s| - 1]];
      WordsSnocBlank(p, s[|s| - 1], true);
    } else {
      assert TrimEnd(s) == s;
    }
  }

  /** Trimming does not change the number of words. */
  lemma WordCountTrim(s: string)
    ensures WordCount(Trim(s)) == WordCount(s)
  {
    if s != [] && IsWhitespace(s[0]) {
      WordsTrimStart(s, true);
    }
    WordsTrimEnd(TrimStart(s));
  }

  // ----- properties of split

  /** Concatenating the pieces gives the string with all whitespace removed:
      the pieces are the original characters, verbatim and in order. */
  lemma {:induction false} ConcatSplit(s: string)
    ensures Concat(SplitWs(s)) == RemoveWs(s)
    decreases |s|
  {
    var n := TokenLen(s);
    RemoveWsToken(s);
    if n == |s| {
      assert Concat([s]) == s + Concat([]);
      assert s[..n] == s;
    } else {
      var next := TrimStart(s[n..]);
      RemoveWsTrimStart(s[n..]);
      ConcatSplit(next);
      var r := [s[..n]] + SplitWs(next);
      assert r[1..] == SplitWs(next);
    }
  }

  /** Joining the pieces with single spaces gives the string with each
      whitespace run collapsed to one space. */
  lemma {:induction false} JoinSplit(s: string)
    ensures JoinSpace(SplitWs(s)) == Collapse(s)
    decreases |s|
  {
    var n := TokenLen(s);
    CollapseToken(s);
    if n == |s| {
      assert s[..n] == s && s[n..] == [];
    } else {
      var next := TrimStart(s[n..]);
      JoinSplit(next);
      var r := [s[..n]] + SplitWs(next);
      assert r[1..] == SplitWs(next);
    }
  }

  /** A non-empty, whitespace-free piece. */
  predicate IsWord(w: string) {
    w != [] && NoWhitespace(w)
  }

  predicate AllWords(pieces: seq<string>) {
    forall k :: 0 <= k < |pieces| ==> IsWord(pieces[k])
  }

  lemma ConsWords(w: string, pieces: seq<string>)
    requires IsWord(w) && AllWords(pieces)
    ensures AllWords([w] + pieces)
  {
    forall k | 0 <= k < |[w] + pieces| ensures IsWord(([w] + pieces)[k]) {
      if k > 0 { assert ([w] + pieces)[k] == pieces[k - 1]; }
    }
  }

  /** On a trimmed string every piece is a word: `\s+` consumes every
      whitespace character, and no whitespace run sits at either end to leave
      an empty piece behind. */
  lemma {:induction false} SplitTrimmedWords(s: string)
    requires Trimmed(s)
    ensures AllWords(SplitWs(s))
    decreases |s|
  {
    var n := TokenLen(s);
    assert IsWord(s[..n]) by {
      assert forall i :: 0 <= i < n ==> s[..n][i] == s[i];
    }
    if n == |s| {
      assert s[..n] == s;
      assert AllWords([s]);
    } else {
      var rest := s[n..];
      var next := TrimStart(rest);
      assert rest[|rest| - 1] == s[|s| - 1];
      assert Trimmed(next) by { TrimStartKeepsLast(rest); }
      SplitTrimmedWords(next);
      ConsWords(s[..n], SplitWs(next));
    }
  }

  /** The leading run of whitespace of a string whose last character is not
      whitespace cannot reach that character. */
  lemma TrimStartKeepsLast(s: string)
    requires s != [] && !IsWhitespace(s[|s| - 1])
    ensures TrimStart(s) != [] && TrimStart(s)[|TrimStart(s)| - 1] == s[|s| - 1]
  {
  }

  /** On a trimmed string there is one piece per word. */
  lemma {:induction false} SplitTrimmedCount(s: string)
    requires Trimmed(s)
    ensures |SplitWs(s)| == WordCount(s)
    decreases |s|
  {
    var n := TokenLen(s);
    WordsToken(s, true);
    if n < |s| {
      var rest := s[n..];
      var next := TrimStart(rest);
      WordsTrimStart(rest, false);
      assert rest[|rest| - 1] == s[|s| - 1];
      assert Trimmed(next) by { TrimStartKeepsLast(rest); }
      SplitTrimmedCount(next);
    }
  }

  lemma {:induction false} TokenLenOfWord(tok: string, rest: string)
    requires NoWhitespace(tok)
    requires rest == [] || IsWhitespace(rest[0])
    ensures TokenLen(tok + rest) == |tok|
    decreases |tok|
  {
    if tok == [] {
      assert tok + rest == rest;
    } else {
      assert (tok + rest)[1..] == tok[1..] + rest;
      TokenLenOfWord(tok[1..], rest);
    }
  }

  lemma {:induction false} JoinStartsWith(tokens: seq<string>)
    requires |tokens| >= 1 && tokens[0] != []
    ensures JoinSpace(tokens) != [] && JoinSpace(tokens)[0] == tokens[0][0]
  {
  }

  lemma {:induction false} JoinEndsWith(tokens: seq<string>)
    requires |tokens| >= 1 && tokens[|tokens| - 1] != []
    ensures JoinSpace(tokens) != []
    ensures JoinSpace(tokens)[|JoinSpace(tokens)| - 1] == tokens[|tokens| - 1][|tokens[|tokens| - 1]| - 1]
    decreases |tokens|
  {
    if |tokens| > 1 {
      JoinEndsWith(tokens[1..]);
    }
  }

  /** Words joined by single spaces form a trimmed string. */
  lemma JoinOfWordsTrimmed(words: seq<string>)
    requires |words| >= 1 && AllWords(words)
    ensures Trimmed(JoinSpace(words))
  {
    assert IsWord(words[0]) && IsWord(words[|words| - 1]);
    JoinStartsWith(words);
    JoinEndsWith(words);
  }

  /** One step of splitting: a word, a single space, then a string that
      starts with non-whitespace. */
  lemma SplitWordSpace(t: string, tail: string)
    requires IsWord(t)
    requires tail != [] && !IsWhitespace(tail[0])
    ensures SplitWs(t + " " + tail) == [t] + SplitWs(tail)
  {
    var gap := " " + tail;
    var s := t + gap;
    assert t + " " + tail == s;
    TokenLenOfWord(t, gap);
    assert s[..|t|] == t;
    assert s[|t|..] == gap;
    assert LeadingWs(gap) == 1 by {
      assert gap[1..] == tail;
    }
    assert TrimStart(gap) == tail;
  }

  /** Splitting undoes joining with single spaces, for a non-empty list of
      non-empty whitespace-free words. */
  lemma {:induction false} SplitJoin(tokens: seq<string>)
    requires |tokens| >= 1
    requires AllWords(tokens)
    ensures SplitWs(JoinSpace(tokens)) == tokens
    decreases |tokens|
  {
    var t := tokens[0];
    assert IsWord(t);
    if |tokens| == 1 {
      TokenLenOfWord(t, []);
      assert t[..|t|] == t;
    } else {
      var rest := tokens[1..];
      assert AllWords(rest) by {
        forall k | 0 <= k < |rest| ensures IsWord(rest[k]) { assert rest[k] == tokens[k + 1]; }
      }
      assert IsWord(rest[0]);
      SplitJoin(rest);
      JoinStartsWith(rest);
      SplitWordSpace(t, JoinSpace(rest));
      assert tokens == [t] + rest;
    }
  }
}
