/** The parts of java.lang.String and java.util.StringTokenizer the query
    pipeline relies on: trim, startsWith, toLowerCase (ASCII letters only),
    tokenising on a delimiter set, and split(" "). */
module JavaStrings {

  /** The delimiter set normalizeString hands to StringTokenizer. */
  const Delimiters: string := "\r\n\t.,;:\"()?! "

  predicate IsDelimiter(c: char) {
    c == '\r' || c == '\n' || c == '\t' || c == '.' || c == ',' || c == ';' ||
    c == ':' || c == '"' || c == '(' || c == ')' || c == '?' || c == '!' || c == ' '
  }

  /** IsDelimiter is membership in the delimiter string, spelled out. */
  lemma DelimitersAreListed(c: char)
    ensures IsDelimiter(c) <==> c in Delimiters
  {
  }

  /** A character String.trim removes: any code point up to U+0020. */
  predicate IsTrimmable(c: char) {
    c <= ' '
  }

  predicate IsDigit(c: char) {
    '0' <= c <= '9'
  }

  predicate StartsWith(s: string, prefix: string) {
    |prefix| <= |s| && s[..|prefix|] == prefix
  }

  /** A non-empty run of characters none of which is a delimiter. */
  predicate IsWord(t: string) {
    t != [] && forall k :: 0 <= k < |t| ==> !IsDelimiter(t[k])
  }

  /** Concatenation of a sequence of strings. */
  function Concat(ss: seq<string>): string {
    if ss == [] then [] else ss[0] + Concat(ss[1..])
  }

  lemma {:induction false} ConcatAppend(a: seq<string>, b: seq<string>)
    ensures Concat(a + b) == Concat(a) + Concat(b)
  {
    if a == [] {
      assert a + b == b;
    } else {
      assert (a + b)[1..] == a[1..] + b;
      ConcatAppend(a[1..], b);
    }
  }

  // ---------------------------------------------------------------------------
  // toLowerCase, restricted to ASCII letters

  function LowerChar(c: char): char {
    if 'A' <= c <= 'Z' then (c as int + 32) as char else c
  }

  function Lower(s: string): string {
    if s == [] then [] else [LowerChar(s[0])] + Lower(s[1..])
  }

  /** Lower-casing changes letters only: length and every other character stay. */
  lemma {:induction false} LowerPointwise(s: string)
    ensures |Lower(s)| == |s|
    ensures forall i :: 0 <= i < |s| ==> Lower(s)[i] == LowerChar(s[i])
  {
    if s != [] {
      LowerPointwise(s[1..]);
    }
  }

  /** Lower-casing twice is lower-casing once. */
  lemma LowerIdempotent(s: string)
    ensures Lower(Lower(s)) == Lower(s)
  {
    LowerPointwise(s);
    LowerPointwise(Lower(s));
  }

  // ---------------------------------------------------------------------------
  // trim

  /** s without its leading trimmable characters. */
  function TrimStart(s: string): string {
    if s != [] && IsTrimmable(s[0]) then TrimStart(s[1..]) else s
  }

  /** s without its trailing trimmable characters. */
  function TrimEnd(s: string): string {
    if s != [] && IsTrimmable(s[|s| - 1]) then TrimEnd(s[..|s| - 1]) else s
  }

  /** String.trim. */
  function Trim(s: string): string {
    TrimEnd(TrimStart(s))
  }

  lemma {:induction false} TrimStartSpec(s: string)
    ensures var r := TrimStart(s);
      |r| <= |s| && r == s[|s| - |r|..] && (r == [] || !IsTrimmable(r[0])) &&
      forall k :: 0 <= k < |s| - |r| ==> IsTrimmable(s[k])
  {
    if s != [] && IsTrimmable(s[0]) {
      TrimStartSpec(s[1..]);
      var r := TrimStart(s);
      assert s[1..][|s| - 1 - |r|..] == s[|s| - |r|..];
      forall k | 0 <= k < |s| - |r| ensures IsTrimmable(s[k]) {
        if k > 0 { assert s[k] == s[1..][k - 1]; }
      }
    }
  }

  lemma {:induction false} TrimEndSpec(s: string)
    ensures var r := TrimEnd(s);
      |r| <= |s| && r == s[..|r|] && (r == [] || !IsTrimmable(r[|r| - 1])) &&
      forall k :: |r| <= k < |s| ==> IsTrimmable(s[k])
  {
    if s != [] && IsTrimmable(s[|s| - 1]) {
      var init := s[..|s| - 1];
      TrimEndSpec(init);
      var r := TrimEnd(s);
      assert init[..|r|] == s[..|r|];
      forall k | |r| <= k < |s| ensures IsTrimmable(s[k]) {
        if k < |s| - 1 { assert s[k] == init[k]; }
      }
    }
  }

  /** String.trim keeps an infix of s, drops only trimmable characters, and
      what it keeps neither starts nor ends with one: the longest such infix. */
  lemma TrimSpec(s: string)
    ensures var r := Trim(s); r == [] || (!IsTrimmable(r[0]) && !IsTrimmable(r[|r| - 1]))
    ensures exists i, j :: (0 <= i <= j <= |s| && Trim(s) == s[i..j] &&
                            (forall k :: 0 <= k < i ==> IsTrimmable(s[k])) &&
                            (forall k :: j <= k < |s| ==> IsTrimmable(s[k])))
  {
    var t := TrimStart(s);
    TrimStartSpec(s);
    TrimEndSpec(t);
    var r := Trim(s);
    var i := |s| - |t|;
    var j := i + |r|;
    assert r == s[i..j];
    forall k | j <= k < |s| ensures IsTrimmable(s[k]) {
      assert s[k] == t[k - i];
    }
  }

  /** A string with no trimmable character is its own trim. */
  lemma TrimNoOp(s: string)
    requires forall k :: 0 <= k < |s| ==> !IsTrimmable(s[k])
    ensures Trim(s) == s
  {
    assert TrimStart(s) == s;
    assert TrimEnd(s) == s;
  }

  /** Trimming and lower-casing give a string that both operations leave alone. */
  lemma LowerTrimNormalised(s: string)
    ensures Trim(Lower(Trim(s))) == Lower(Trim(s))
    ensures Lower(Lower(Trim(s))) == Lower(Trim(s))
  {
    var t := Trim(s);
    var l := Lower(t);
    TrimSpec(s);
    LowerPointwise(t);
    LowerIdempotent(t);
    if l != [] {
      assert !IsTrimmable(l[0]) && !IsTrimmable(l[|l| - 1]);
      assert TrimStart(l) == l;
      assert TrimEnd(l) == l;
    }
  }

  // ---------------------------------------------------------------------------
  // StringTokenizer(s, Delimiters)

  /** Length of the leading run of non-delimiter characters. */
  function RunLength(s: string): (n: nat)
    ensures n <= |s|
  {
    if s == [] || IsDelimiter(s[0]) then 0 else 1 + RunLength(s[1..])
  }

  /** The run is maximal: no delimiter inside, a delimiter (or the end) after it. */
  lemma {:induction false} RunLengthSpec(s: string)
    ensures forall k :: 0 <= k < RunLength(s) ==> !IsDelimiter(s[k])
    ensures RunLength(s) < |s| ==> IsDelimiter(s[RunLength(s)])
  {
    if s != [] && !IsDelimiter(s[0]) {
      RunLengthSpec(s[1..]);
      forall k | 0 < k < RunLength(s) ensures !IsDelimiter(s[k]) {
        assert s[k] == s[1..][k - 1];
      }
    }
  }

  /** Only one length is a maximal leading run. */
  lemma {:induction false} RunLengthUnique(s: string, n: nat)
    requires n <= |s|
    requires forall k :: 0 <= k < n ==> !IsDelimiter(s[k])
    requires n < |s| ==> IsDelimiter(s[n])
    ensures RunLength(s) == n
  {
    if n > 0 {
      RunLengthUnique(s[1..], n - 1);
    }
  }

  /** The tokens StringTokenizer returns, in order: every maximal run of
      non-delimiter characters. */
  function Tokens(s: string): seq<string>
    decreases |s|
  {
    if s == [] then []
    else if IsDelimiter(s[0]) then Tokens(s[1..])
    else
      var n := RunLength(s);
      [s[..n]] + Tokens(s[n..])
  }

  /** No token is empty and none holds a delimiter. */
  lemma {:induction false} TokensAreWords(s: string)
    ensures forall t :: t in Tokens(s) ==> IsWord(t)
    decreases |s|
  {
    if s == [] {
    } else if IsDelimiter(s[0]) {
      TokensAreWords(s[1..]);
    } else {
      var n := RunLength(s);
      RunLengthSpec(s);
      TokensAreWords(s[n..]);
      assert Tokens(s) == [s[..n]] + Tokens(s[n..]);
    }
  }

  /** A single word tokenises to itself. */
  lemma TokensOfWord(w: string)
    requires IsWord(w)
    ensures Tokens(w) == [w]
  {
    RunLengthUnique(w, |w|);
    assert w[..|w|] == w;
    assert w[|w|..] == [];
  }

  /** A run never reaches past a delimiter appended after it. */
  lemma {:induction false} RunLengthBeforeDelimiter(a: string, d: char, b: string)
    requires IsDelimiter(d)
    ensures RunLength(a + [d] + b) == RunLength(a)
  {
    if a == [] {
      assert (a + [d] + b)[0] == d;
    } else if !IsDelimiter(a[0]) {
      assert (a + [d] + b)[1..] == a[1..] + [d] + b;
      RunLengthBeforeDelimiter(a[1..], d, b);
    }
  }

  /** Any delimiter separates: the text before it and the text after it are
      tokenised independently. With TokensOfWord this pins Tokens down. */
  lemma {:induction false} TokensSplitAtDelimiter(a: string, d: char, b: string)
    requires IsDelimiter(d)
    ensures Tokens(a + [d] + b) == Tokens(a) + Tokens(b)
    decreases |a|
  {
    var s := a + [d] + b;
    if a == [] {
      assert s == [d] + b && s[1..] == b;
    } else if IsDelimiter(a[0]) {
      assert s[1..] == a[1..] + [d] + b;
      TokensSplitAtDelimiter(a[1..], d, b);
    } else {
      var n := RunLength(a);
      RunLengthBeforeDelimiter(a, d, b);
      assert s[..n] == a[..n];
      assert s[n..] == a[n..] + [d] + b;
      TokensSplitAtDelimiter(a[n..], d, b);
    }
  }

  /** The delimiters removed from s, everything else kept in order. */
  function NonDelimiters(s: string): string {
    if s == [] then []
    else (if IsDelimiter(s[0]) then [] else [s[0]]) + NonDelimiters(s[1..])
  }

  lemma {:induction false} NonDelimitersAppend(a: string, b: string)
    ensures NonDelimiters(a + b) == NonDelimiters(a) + NonDelimiters(b)
  {
    if a != [] {
      assert (a + b)[1..] == a[1..] + b;
      NonDelimitersAppend(a[1..], b);
    } else {
      assert a + b == b;
    }
  }

  /** Tokenising loses nothing but delimiters. */
  lemma {:induction false} TokensKeepContent(s: string)
    ensures Concat(Tokens(s)) == NonDelimiters(s)
    decreases |s|
  {
    if s == [] {
    } else if IsDelimiter(s[0]) {
      TokensKeepContent(s[1..]);
    } else {
      var n := RunLength(s);
      RunLengthSpec(s);
      assert s == s[..n] + s[n..];
      NonDelimitersAppend(s[..n], s[n..]);
      NoDelimitersKept(s[..n]);
      TokensKeepContent(s[n..]);
      assert Tokens(s) == [s[..n]] + Tokens(s[n..]);
      assert Concat(Tokens(s)) == s[..n] + Concat(Tokens(s[n..]));
    }
  }

  lemma {:induction false} NoDelimitersKept(w: string)
    requires forall k :: 0 <= k < |w| ==> !IsDelimiter(w[k])
    ensures NonDelimiters(w) == w
  {
    if w != [] {
      NoDelimitersKept(w[1..]);
    }
  }

  // ---------------------------------------------------------------------------
  // String.split(" ")

  /** Every piece between single spaces, including empty ones, in order. */
  function SpacePieces(s: string): (ps: seq<string>)
    ensures |ps| >= 1
  {
    if s == [] then [[]]
    else
      var rest := SpacePieces(s[1..]);
      if s[0] == ' ' then [[]] + rest else [[s[0]] + rest[0]] + rest[1..]
  }

  function DropTrailingEmpty(ps: seq<string>): seq<string> {
    if ps != [] && ps[|ps| - 1] == [] then DropTrailingEmpty(ps[..|ps| - 1]) else ps
  }

  /** String.split(" ") with its default limit: when the string holds no space
      the result is the string itself (so "" gives [""]); otherwise all pieces
      with trailing empty pieces removed. */
  function SplitOnSpace(s: string): (r: seq<string>)
    ensures forall p :: p in r ==> ' ' !in p
    ensures |r| == 0 <==> s != [] && AllSpaces(s)
    ensures ' ' in s && r != [] ==> r[|r| - 1] != []
  {
    PiecesHaveNoSpace(s);
    if ' ' !in s then
      assert s != [] ==> s[0] != ' ';
      [s]
    else
      AllPiecesEmpty(s);
      DropTrailingEmptyEmpty(SpacePieces(s));
      DropTrailingEmptySpec(SpacePieces(s));
      DropTrailingEmpty(SpacePieces(s))
  }

  /** With a space in s, the split is the pieces between single spaces with
      only empty pieces dropped, and those only at the end. */
  lemma SplitOnSpaceSpec(s: string)
    ensures ' ' !in s ==> SplitOnSpace(s) == [s]
    ensures ' ' in s ==>
      var ps := SpacePieces(s);
      var r := SplitOnSpace(s);
      |r| <= |ps| && r == ps[..|r|] && (forall k :: |r| <= k < |ps| ==> ps[k] == [])
  {
    if ' ' in s {
      DropTrailingEmptySpec(SpacePieces(s));
    }
  }

  /** Dropping trailing empty pieces keeps a prefix, drops only empty pieces,
      and leaves a last piece that is not empty. */
  lemma {:induction false} DropTrailingEmptySpec(ps: seq<string>)
    ensures var r := DropTrailingEmpty(ps);
      |r| <= |ps| && r == ps[..|r|] &&
      (forall k :: |r| <= k < |ps| ==> ps[k] == []) &&
      (r != [] ==> r[|r| - 1] != [])
    decreases |ps|
  {
    if ps != [] && ps[|ps| - 1] == [] {
      var init := ps[..|ps| - 1];
      DropTrailingEmptySpec(init);
      var r := DropTrailingEmpty(init);
      assert ps[..|r|] == init[..|r|];
      forall k | |r| <= k < |ps| ensures ps[k] == [] {
        if k < |init| {
          assert ps[k] == init[k];
        }
      }
    } else {
      assert ps[..|ps|] == ps;
    }
  }

  /** The pieces joined back with a single space between neighbours. */
  function JoinWithSpace(ps: seq<string>): string {
    if ps == [] then []
    else if |ps| == 1 then ps[0]
    else ps[0] + " " + JoinWithSpace(ps[1..])
  }

  /** Splitting into pieces loses nothing: joining them with single spaces
      gives the string back. */
  lemma {:induction false} SpacePiecesJoin(s: string)
    ensures JoinWithSpace(SpacePieces(s)) == s
  {
    if s != [] {
      SpacePiecesJoin(s[1..]);
      var rest := SpacePieces(s[1..]);
      if s[0] == ' ' {
        JoinAfterEmpty(rest);
        assert s == " " + s[1..];
      } else {
        JoinExtendFirst(s[0], rest);
        assert s == [s[0]] + s[1..];
      }
    }
  }

  /** An empty first piece contributes just the space after it. */
  lemma JoinAfterEmpty(ps: seq<string>)
    requires ps != []
    ensures JoinWithSpace([[]] + ps) == " " + JoinWithSpace(ps)
  {
    assert ([[]] + ps)[1..] == ps;
  }

  /** A character put in front of the first piece goes in front of the join. */
  lemma JoinExtendFirst(c: char, ps: seq<string>)
    requires ps != []
    ensures JoinWithSpace([[c] + ps[0]] + ps[1..]) == [c] + JoinWithSpace(ps)
  {
    var qs := [[c] + ps[0]] + ps[1..];
    if |ps| > 1 {
      assert qs[1..] == ps[1..];
      assert [c] + ps[0] + " " + JoinWithSpace(ps[1..]) == [c] + (ps[0] + " " + JoinWithSpace(ps[1..]));
    }
  }

  lemma {:induction false} PiecesHaveNoSpace(s: string)
    ensures forall p :: p in SpacePieces(s) ==> ' ' !in p
  {
    if s != [] {
      PiecesHaveNoSpace(s[1..]);
      var rest := SpacePieces(s[1..]);
      assert rest == [rest[0]] + rest[1..];
      assert forall p :: p in rest[1..] ==> p in rest;
    }
  }

  predicate AllSpaces(s: string) {
    forall k :: 0 <= k < |s| ==> s[k] == ' '
  }

  predicate AllEmpty(ps: seq<string>) {
    forall p :: p in ps ==> p == []
  }

  /** All pieces are empty exactly when the string is all spaces. */
  lemma {:induction false} AllPiecesEmpty(s: string)
    ensures AllEmpty(SpacePieces(s)) <==> AllSpaces(s)
  {
    if s != [] {
      AllPiecesEmpty(s[1..]);
      var rest := SpacePieces(s[1..]);
      if s[0] == ' ' {
        assert SpacePieces(s) == [[]] + rest;
        assert forall p :: p in SpacePieces(s) <==> p == [] || p in rest;
        assert AllEmpty(SpacePieces(s)) <==> AllEmpty(rest);
        if AllSpaces(s[1..]) {
          forall k | 0 <= k < |s| ensures s[k] == ' ' {
            if k > 0 { assert s[k] == s[1..][k - 1]; }
          }
        }
        if AllSpaces(s) {
          forall k | 0 <= k < |s[1..]| ensures s[1..][k] == ' ' {
            assert s[1..][k] == s[k + 1];
          }
        }
      } else {
        assert SpacePieces(s)[0] != [] && SpacePieces(s)[0] in SpacePieces(s);
      }
    }
  }

  lemma {:induction false} DropTrailingEmptyEmpty(ps: seq<string>)
    ensures DropTrailingEmpty(ps) == [] <==> AllEmpty(ps)
    ensures forall p :: p in DropTrailingEmpty(ps) ==> p in ps
    decreases |ps|
  {
    if ps != [] && ps[|ps| - 1] == [] {
      var init := ps[..|ps| - 1];
      DropTrailingEmptyEmpty(init);
      assert ps == init + [ps[|ps| - 1]];
      assert forall p :: p in ps <==> p in init || p == [];
      assert AllEmpty(ps) <==> AllEmpty(init);
    } else if ps != [] {
      assert ps[|ps| - 1] in ps;
    }
  }

  /** Each word followed by exactly one space: the shape normalizeString builds. */
  function Terminated(ws: seq<string>): string {
    if ws == [] then [] else ws[0] + " " + Terminated(ws[1..])
  }

  /** Terminated text is empty exactly when there are no words, and otherwise
      ends in a space. */
  lemma {:induction false} TerminatedShape(ws: seq<string>)
    ensures Terminated(ws) == [] <==> ws == []
    ensures ws != [] ==> Terminated(ws)[|Terminated(ws)| - 1] == ' '
  {
    if ws != [] {
      TerminatedShape(ws[1..]);
    }
  }

  lemma {:induction false} TerminatedAppend(a: seq<string>, b: seq<string>)
    ensures Terminated(a + b) == Terminated(a) + Terminated(b)
  {
    if a == [] {
      assert a + b == b;
    } else {
      assert (a + b)[1..] == a[1..] + b;
      TerminatedAppend(a[1..], b);
    }
  }

  lemma {:induction false} PiecesOfWordThenSpace(w: string, rest: string)
    requires ' ' !in w
    ensures SpacePieces(w + " " + rest) == [w] + SpacePieces(rest)
    decreases |w|
  {
    var s := w + " " + rest;
    if w == [] {
      assert s == " " + rest && s[1..] == rest;
    } else {
      assert s[1..] == w[1..] + " " + rest;
      PiecesOfWordThenSpace(w[1..], rest);
      assert [s[0]] + w[1..] == w;
    }
  }

  lemma {:induction false} PiecesOfTerminated(ws: seq<string>)
    requires forall w :: w in ws ==> ' ' !in w
    ensures SpacePieces(Terminated(ws)) == ws + [[]]
  {
    if ws != [] {
      PiecesOfTerminated(ws[1..]);
      PiecesOfWordThenSpace(ws[0], Terminated(ws[1..]));
      assert ws == [ws[0]] + ws[1..];
    }
  }

  /** split(" ") inverts Terminated on non-empty space-free words; with no
      words the empty string splits to one empty piece, never to nothing. */
  lemma SplitTerminatedRoundTrip(ws: seq<string>)
    requires forall w :: w in ws ==> w != [] && ' ' !in w
    ensures SplitOnSpace(Terminated(ws)) == if ws == [] then [[]] else ws
  {
    if ws != [] {
      PiecesOfTerminated(ws);
      TerminatedShape(ws);
      var s := Terminated(ws);
      assert s[|s| - 1] == ' ' && s[|s| - 1] in s;
      var ps := ws + [[]];
      assert ps[..|ps| - 1] == ws;
      assert ws[|ws| - 1] in ws;
      assert DropTrailingEmpty(ps) == DropTrailingEmpty(ws) == ws;
    }
  }
}
