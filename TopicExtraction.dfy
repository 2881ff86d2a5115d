/** ExtractQuery: a pull-based reader over a TREC-style topic file. Each
    topic block starts with a "<top>" line, is followed by a line holding the
    topic number, and runs up to a "</top>" line; its text is tokenised,
    lower-cased, stripped of stop words and stemmed into the query content.

    The topic file is the sequence of its lines and the reader a cursor into
    it; the stop-word file is the sequence of its lines; the stemmer is a
    function from a lower-case token to its stem. */
module TopicExtraction {
  import opened Wrappers
  import opened JavaStrings

  /** A topic as next() hands it out: its number and its normalised text. */
  datatype Query = Query(topicId: string, content: string)

  /** The query next() returns when there is no reader to read from. */
  const EmptyQuery: Query := Query([], [])

  /** The ways next() ends abruptly. */
  datatype Failure =
    | MissingTopicIdLine   // no line left where the topic number was expected
    | MissingTopEnd        // the lines ran out before a "</top>" line
    | TitleTooShort(line: nat)  // a trimmed "<title>" line shorter than 8 characters

  /** The reader field: null (a file could not be opened), open, or closed. */
  datatype ReaderState = Unavailable | Open | Closed

  // ---------------------------------------------------------------------------
  // Stop words

  /** Every stop-word file line, trimmed and lower-cased. */
  function StopWordSet(fileLines: seq<string>): set<string> {
    set l | l in fileLines :: Lower(Trim(l))
  }

  /** Stored stop words are already normalised: trimming or lower-casing one
      again gives it back, so membership tests compare normalised words. */
  lemma StopWordsAreNormalised(fileLines: seq<string>)
    ensures forall w :: w in StopWordSet(fileLines) ==> Trim(w) == w && Lower(w) == w
  {
    forall w | w in StopWordSet(fileLines)
      ensures Trim(w) == w && Lower(w) == w
    {
      var l :| l in fileLines && w == Lower(Trim(l));
      LowerTrimNormalised(l);
    }
  }

  /** The constructor's loop that fills the stop-word set, one line at a time. */
  method LoadStopWords(fileLines: seq<string>) returns (words: set<string>)
    ensures words == StopWordSet(fileLines)
  {
    words := {};
    for i := 0 to |fileLines|
      invariant words == StopWordSet(fileLines[..i])
    {
      assert fileLines[..i + 1] == fileLines[..i] + [fileLines[i]];
      words := words + {Lower(Trim(fileLines[i]))};
    }
    assert fileLines[..|fileLines|] == fileLines;
  }

  // ---------------------------------------------------------------------------
  // Normalisation: tokenise, lower-case, drop stop words, stem

  /** lcNoStopStem: the stop-word test is on the lower-cased token, before
      stemming; an empty result means the token contributes nothing. */
  function LcNoStopStem(token: string, stopWords: set<string>, stem: string -> string): string {
    var lc := Lower(token);
    if lc in stopWords then [] else stem(lc)
  }

  /** The non-empty results of LcNoStopStem over the tokens, in token order. */
  function Survivors(ts: seq<string>, stopWords: set<string>, stem: string -> string): seq<string> {
    if ts == [] then []
    else
      var w := LcNoStopStem(ts[0], stopWords, stem);
      (if w == [] then [] else [w]) + Survivors(ts[1..], stopWords, stem)
  }

  /** No more survivors than tokens, and none of them empty. */
  lemma {:induction false} SurvivorsShape(ts: seq<string>, stopWords: set<string>, stem: string -> string)
    ensures |Survivors(ts, stopWords, stem)| <= |ts|
    ensures forall w :: w in Survivors(ts, stopWords, stem) ==> w != []
  {
    if ts != [] {
      SurvivorsShape(ts[1..], stopWords, stem);
    }
  }

  /** normalizeString: each surviving stem followed by one space. */
  function Normalize(s: string, stopWords: set<string>, stem: string -> string): string {
    Terminated(Survivors(Tokens(s), stopWords, stem))
  }

  /** normalizeString's output is empty exactly when no token survives, and
      otherwise ends in a space; it holds no more words than there are tokens. */
  lemma NormalizeShape(s: string, stopWords: set<string>, stem: string -> string)
    ensures var ws := Survivors(Tokens(s), stopWords, stem);
      |ws| <= |Tokens(s)| &&
      (Normalize(s, stopWords, stem) == [] <==> ws == []) &&
      (ws != [] ==> Normalize(s, stopWords, stem)[|Normalize(s, stopWords, stem)| - 1] == ' ')
  {
    SurvivorsShape(Tokens(s), stopWords, stem);
    TerminatedShape(Survivors(Tokens(s), stopWords, stem));
  }

  lemma {:induction false} SurvivorsAppend(a: seq<string>, b: seq<string>, stopWords: set<string>, stem: string -> string)
    ensures Survivors(a + b, stopWords, stem) == Survivors(a, stopWords, stem) + Survivors(b, stopWords, stem)
  {
    if a == [] {
      assert a + b == b;
    } else {
      assert (a + b)[1..] == a[1..] + b;
      SurvivorsAppend(a[1..], b, stopWords, stem);
    }
  }

  /** How normalizeString's loop advances: past a delimiter nothing is added;
      past a run of n non-delimiters, that token's surviving stem (if any). */
  lemma NormalizeSkipsDelimiter(s: string, stopWords: set<string>, stem: string -> string)
    requires s != [] && IsDelimiter(s[0])
    ensures Normalize(s, stopWords, stem) == Normalize(s[1..], stopWords, stem)
  {
  }

  lemma NormalizeTakesToken(s: string, n: nat, stopWords: set<string>, stem: string -> string)
    requires 0 < n <= |s|
    requires forall k :: 0 <= k < n ==> !IsDelimiter(s[k])
    requires n < |s| ==> IsDelimiter(s[n])
    ensures var w := LcNoStopStem(s[..n], stopWords, stem);
      Normalize(s, stopWords, stem) == (if w == [] then [] else w + " ") + Normalize(s[n..], stopWords, stem)
  {
    RunLengthUnique(s, n);
    assert Tokens(s) == [s[..n]] + Tokens(s[n..]);
    var w := LcNoStopStem(s[..n], stopWords, stem);
    var head := if w == [] then [] else [w];
    SurvivorsAppend([s[..n]], Tokens(s[n..]), stopWords, stem);
    assert [s[..n]][1..] == [];
    assert Survivors([s[..n]], stopWords, stem) == head;
    TerminatedAppend(head, Survivors(Tokens(s[n..]), stopWords, stem));
    if w != [] {
      assert head[1..] == [];
    }
  }

  /** The two steps of normalizeString's loop, stated at an offset i of the
      whole text. */
  lemma NormalizeStepDelimiter(s: string, i: nat, stopWords: set<string>, stem: string -> string)
    requires i < |s| && IsDelimiter(s[i])
    ensures Normalize(s[i..], stopWords, stem) == Normalize(s[i + 1..], stopWords, stem)
  {
    assert s[i..][1..] == s[i + 1..];
    NormalizeSkipsDelimiter(s[i..], stopWords, stem);
  }

  lemma NormalizeStepToken(s: string, i: nat, j: nat, stopWords: set<string>, stem: string -> string)
    requires i < j <= |s|
    requires forall k :: i <= k < j ==> !IsDelimiter(s[k])
    requires j < |s| ==> IsDelimiter(s[j])
    ensures var w := LcNoStopStem(s[i..j], stopWords, stem);
      Normalize(s[i..], stopWords, stem) == (if w == [] then [] else w + " ") + Normalize(s[j..], stopWords, stem)
  {
    var t := s[i..];
    forall k | 0 <= k < j - i ensures !IsDelimiter(t[k]) {
      assert t[k] == s[i + k];
    }
    assert j - i < |t| ==> t[j - i] == s[j];
    assert t[..j - i] == s[i..j];
    assert t[j - i..] == s[j..];
    NormalizeTakesToken(t, j - i, stopWords, stem);
  }

  /** normalizeString's loop step over one token: the output built so far
      grows by the token's contribution. */
  lemma NormalizeAdvance(s: string, i: nat, j: nat, sb: string, stopWords: set<string>, stem: string -> string)
    requires i < j <= |s|
    requires forall k :: i <= k < j ==> !IsDelimiter(s[k])
    requires j < |s| ==> IsDelimiter(s[j])
    requires Normalize(s, stopWords, stem) == sb + Normalize(s[i..], stopWords, stem)
    ensures var w := LcNoStopStem(s[i..j], stopWords, stem);
      Normalize(s, stopWords, stem) == (if w == [] then sb else sb + w + " ") + Normalize(s[j..], stopWords, stem)
  {
    NormalizeStepToken(s, i, j, stopWords, stem);
    var w := LcNoStopStem(s[i..j], stopWords, stem);
    var rest := Normalize(s[j..], stopWords, stem);
    if w != [] {
      assert sb + (w + " " + rest) == sb + w + " " + rest;
    } else {
      assert [] + rest == rest;
    }
  }

  /** A token whose lower-cased form is a stop word contributes nothing. */
  lemma StopWordContributesNothing(t: string, stopWords: set<string>, stem: string -> string)
    requires IsWord(t) && Lower(t) in stopWords
    ensures Normalize(t, stopWords, stem) == []
  {
    TokensOfWord(t);
    assert [t][1..] == [];
    assert Survivors([t], stopWords, stem) == [];
  }

  /** Any other token contributes the stem of its lower-cased form and one
      space, even when that stem is itself a stop word; an empty stem is
      skipped. */
  lemma OtherWordContributesStem(t: string, stopWords: set<string>, stem: string -> string)
    requires IsWord(t) && Lower(t) !in stopWords
    ensures Normalize(t, stopWords, stem) ==
      if stem(Lower(t)) == [] then [] else stem(Lower(t)) + " "
  {
    TokensOfWord(t);
    assert [t][1..] == [];
    var w := stem(Lower(t));
    assert LcNoStopStem(t, stopWords, stem) == w;
    if w == [] {
      assert Survivors([t], stopWords, stem) == [];
    } else {
      assert Survivors([t], stopWords, stem) == [w] + [];
      assert [w] + [] == [w];
      assert [w][1..] == [];
      assert Terminated([w]) == w + " " + [];
      assert w + " " + [] == w + " ";
    }
  }

  /** A delimiter cuts the text into two parts normalised independently. */
  lemma NormalizeSplitsAtDelimiter(a: string, d: char, b: string, stopWords: set<string>, stem: string -> string)
    requires IsDelimiter(d)
    ensures Normalize(a + [d] + b, stopWords, stem) == Normalize(a, stopWords, stem) + Normalize(b, stopWords, stem)
  {
    TokensSplitAtDelimiter(a, d, b);
    SurvivorsAppend(Tokens(a), Tokens(b), stopWords, stem);
    TerminatedAppend(Survivors(Tokens(a), stopWords, stem), Survivors(Tokens(b), stopWords, stem));
  }

  // ---------------------------------------------------------------------------
  // The topic file

  /** hasNext's start marker: the trimmed line starts with "<top>" (case matters). */
  predicate IsTopStart(line: string) {
    StartsWith(Trim(line), "<top>")
  }

  /** processOneTopic's end marker: the untrimmed line starts with "</top>". */
  predicate IsTopEnd(line: string) {
    StartsWith(line, "</top>")
  }

  /** Index of the first start line at or after from, if any. */
  function FindTopStart(lines: seq<string>, from: nat): (r: Option<nat>)
    ensures r.Some? ==> (from <= r.value < |lines| && IsTopStart(lines[r.value]) &&
                         forall k :: from <= k < r.value ==> !IsTopStart(lines[k]))
    ensures r.None? ==> forall k :: from <= k < |lines| ==> !IsTopStart(lines[k])
    decreases |lines| - from
  {
    if from >= |lines| then None
    else if IsTopStart(lines[from]) then Some(from)
    else FindTopStart(lines, from + 1)
  }

  /** Index of the first digit at or after i, or |s| when there is none. */
  function FirstDigitFrom(s: string, i: nat): (j: nat)
    requires i <= |s|
    ensures i <= j <= |s|
    ensures forall k :: i <= k < j ==> !IsDigit(s[k])
    ensures j < |s| ==> IsDigit(s[j])
    decreases |s| - i
  {
    if i == |s| || IsDigit(s[i]) then i else FirstDigitFrom(s, i + 1)
  }

  /** End of the run of digits that starts at i. */
  function DigitRunFrom(s: string, i: nat): (j: nat)
    requires i <= |s|
    ensures i <= j <= |s|
    ensures forall k :: i <= k < j ==> IsDigit(s[k])
    ensures j < |s| ==> !IsDigit(s[j])
    decreases |s| - i
  {
    if i == |s| || !IsDigit(s[i]) then i else DigitRunFrom(s, i + 1)
  }

  /** The first match of [0-9]+ in the line: the leftmost maximal run of
      ASCII digits, or "" when the line holds no digit. */
  function TopicId(line: string): (r: string)
    ensures r == [] <==> forall k :: 0 <= k < |line| ==> !IsDigit(line[k])
    ensures forall k :: 0 <= k < |r| ==> IsDigit(r[k])
    ensures r != [] ==> exists i, j :: (0 <= i <= j <= |line| && line[i..j] == r &&
                                        (forall k :: 0 <= k < i ==> !IsDigit(line[k])) &&
                                        (j < |line| ==> !IsDigit(line[j])))
  {
    var i := FirstDigitFrom(line, 0);
    var j := DigitRunFrom(line, i);
    line[i..j]
  }

  /** What one body line adds after its leading space: a "<title>" line its
      trimmed text minus the first 8 characters (None when it has fewer), a
      "<desc>" or "<narr>" marker line nothing, any other line its trimmed text. */
  function LineText(line: string): Option<string> {
    var processed := Trim(line);
    if StartsWith(processed, "<title>") then
      if |processed| < 8 then None else Some(processed[8..])
    else if StartsWith(processed, "<desc>") || StartsWith(processed, "<narr>") then
      Some([])
    else
      Some(processed)
  }

  /** A body line processOneTopic reads past: not the end marker, and with
      text it can extract. */
  predicate Plain(line: string) {
    !IsTopEnd(line) && LineText(line).Some?
  }

  /** The gathered body text and the index of the line after "</top>". */
  datatype Body = Body(text: string, next: nat)

  /** processOneTopic from line index from: every line before the first
      "</top>" line adds a space and its LineText; the "</top>" line adds
      nothing and is consumed. */
  function CollectBody(lines: seq<string>, from: nat): (r: Result<Body, Failure>)
    requires from <= |lines|
    ensures r.Success? ==> from < r.value.next <= |lines|
    ensures r.Failure? ==> r.error.MissingTopEnd? || (r.error.TitleTooShort? && from <= r.error.line < |lines|)
    decreases |lines| - from
  {
    if from == |lines| then Failure(MissingTopEnd)
    else if IsTopEnd(lines[from]) then Success(Body([], from + 1))
    else match LineText(lines[from])
      case None => Failure(TitleTooShort(from))
      case Some(t) =>
        match CollectBody(lines, from + 1)
        case Success(b) => Success(Body(" " + t + b.text, b.next))
        case Failure(e) => Failure(e)
  }

  /** Where processOneTopic stops: just past the first "</top>" line, every
      line before it plain; at the end of the lines, every line plain; or at
      the first line whose text cannot be extracted. */
  lemma {:induction false} CollectBodyOutcome(lines: seq<string>, from: nat)
    requires from <= |lines|
    ensures var r := CollectBody(lines, from);
      (r.Success? ==>
        IsTopEnd(lines[r.value.next - 1]) &&
        forall k :: from <= k < r.value.next - 1 ==> Plain(lines[k])) &&
      (r.Failure? && r.error.MissingTopEnd? ==> forall k :: from <= k < |lines| ==> Plain(lines[k])) &&
      (r.Failure? && r.error.TitleTooShort? ==>
        !IsTopEnd(lines[r.error.line]) && LineText(lines[r.error.line]).None? &&
        forall k :: from <= k < r.error.line ==> Plain(lines[k]))
    decreases |lines| - from
  {
    if from < |lines| && !IsTopEnd(lines[from]) && LineText(lines[from]).Some? {
      CollectBodyOutcome(lines, from + 1);
    }
  }

  /** What one body line adds: a space followed by its LineText. */
  function Piece(line: string): string {
    match LineText(line)
    case Some(t) => " " + t
    case None => " "
  }

  /** The pieces of the lines in [from, end). */
  function BodyPieces(lines: seq<string>, from: nat, end: nat): seq<string>
    requires from <= end <= |lines|
  {
    seq(end - from, i requires 0 <= i < end - from => Piece(lines[from + i]))
  }

  /** Up to a "</top>" line at index end, the body text is exactly the
      concatenation of one piece per line before it, in file order, and
      the cursor ends just past it. */
  lemma {:induction false} CollectBodyIsConcatenation(lines: seq<string>, from: nat, end: nat)
    requires from <= end < |lines| && IsTopEnd(lines[end])
    requires forall k :: from <= k < end ==> Plain(lines[k])
    ensures CollectBody(lines, from) == Success(Body(Concat(BodyPieces(lines, from, end)), end + 1))
    decreases end - from
  {
    if from == end {
      assert BodyPieces(lines, from, from) == [];
    } else {
      CollectBodyIsConcatenation(lines, from + 1, end);
      BodyPiecesCons(lines, from, end);
      CollectBodyUnfold(lines, from);
    }
  }

  /** A plain line contributes its piece in front of the rest of the body. */
  lemma CollectBodyUnfold(lines: seq<string>, from: nat)
    requires from < |lines| && Plain(lines[from])
    ensures CollectBody(lines, from) == PrependText(Piece(lines[from]), CollectBody(lines, from + 1))
  {
  }

  /** The pieces of [from, end) are the piece of line from, then the rest. */
  lemma BodyPiecesCons(lines: seq<string>, from: nat, end: nat)
    requires from < end <= |lines|
    ensures BodyPieces(lines, from, end) == [Piece(lines[from])] + BodyPieces(lines, from + 1, end)
  {
    var pieces := BodyPieces(lines, from, end);
    var tail := BodyPieces(lines, from + 1, end);
    forall i | 0 <= i < |tail| ensures pieces[i + 1] == tail[i] {
    }
    assert pieces == [pieces[0]] + tail;
  }

  /** A topic parsed by next() and the line index after it. */
  datatype Parsed = Parsed(query: Query, next: nat)

  /** next() on an open reader at line index from: the topic number from the
      first line, then the normalised body. */
  function ParseTopic(lines: seq<string>, from: nat, stopWords: set<string>, stem: string -> string): Result<Parsed, Failure>
    requires from <= |lines|
  {
    if from == |lines| then Failure(MissingTopicIdLine)
    else match CollectBody(lines, from + 1)
      case Failure(e) => Failure(e)
      case Success(b) => Success(Parsed(Query(TopicId(lines[from]), Normalize(b.text, stopWords, stem)), b.next))
  }

  /** A well-formed topic: the number line at from, plain lines, then "</top>"
      at end. next() yields the number and the normalised concatenation of the
      body pieces, and leaves the cursor just past "</top>". */
  lemma ParseTopicReadsOneTopic(lines: seq<string>, from: nat, end: nat, stopWords: set<string>, stem: string -> string)
    requires from < end < |lines| && IsTopEnd(lines[end])
    requires forall k :: from < k < end ==> Plain(lines[k])
    ensures ParseTopic(lines, from, stopWords, stem) ==
      Success(Parsed(Query(TopicId(lines[from]), Normalize(Concat(BodyPieces(lines, from + 1, end)), stopWords, stem)), end + 1))
  {
    CollectBodyIsConcatenation(lines, from + 1, end);
    var body := Concat(BodyPieces(lines, from + 1, end));
    assert CollectBody(lines, from + 1) == Success(Body(body, end + 1));
  }

  /** Where the cursor is left after next() ends with a failure. */
  function PosAfterFailure(e: Failure, lines: seq<string>): nat {
    if e.TitleTooShort? then e.line + 1 else |lines|
  }

  /** PrependText(p, CollectBody(lines, k)) is what processOneTopic returns
      once it has built p and is about to read line k. */
  function PrependText(prefix: string, r: Result<Body, Failure>): Result<Body, Failure> {
    match r
    case Success(b) => Success(Body(prefix + b.text, b.next))
    case Failure(e) => Failure(e)
  }

  /** One plain line consumed: its piece moves from the rest into the prefix. */
  lemma CollectBodyStep(lines: seq<string>, k: nat, prefix: string)
    requires k < |lines| && Plain(lines[k])
    ensures PrependText(prefix, CollectBody(lines, k)) ==
            PrependText(prefix + " " + LineText(lines[k]).value, CollectBody(lines, k + 1))
  {
    var t := LineText(lines[k]).value;
    match CollectBody(lines, k + 1)
    case Success(b) =>
      assert prefix + (" " + t + b.text) == prefix + " " + t + b.text;
    case Failure(e) =>
  }

  /** The three ways processOneTopic stops, read off CollectBody. */
  lemma CollectBodyStops(lines: seq<string>, k: nat)
    requires k <= |lines|
    ensures k == |lines| ==> CollectBody(lines, k) == Failure(MissingTopEnd)
    ensures k < |lines| && IsTopEnd(lines[k]) ==> CollectBody(lines, k) == Success(Body([], k + 1))
    ensures k < |lines| && !IsTopEnd(lines[k]) && LineText(lines[k]).None? ==>
      CollectBody(lines, k) == Failure(TitleTooShort(k))
  {
  }

  lemma PrependNothing(r: Result<Body, Failure>)
    ensures PrependText([], r) == r
  {
    if r.Success? {
      assert [] + r.value.text == r.value.text;
    }
  }

  // ---------------------------------------------------------------------------
  // The iterator

  class ExtractQuery {
    const lines: seq<string>
    const stopWords: set<string>
    const stem: string -> string
    var state: ReaderState
    var pos: nat

    ghost predicate Valid()
      reads this
    {
      pos <= |lines|
    }

    /** Opens the topic file and loads the stop words; if either file cannot
        be read the reader is left null. */
    constructor (topicFile: Option<seq<string>>, stopWordFile: Option<seq<string>>, stem: string -> string)
      ensures Valid() && pos == 0 && this.stem == stem
      ensures lines == if topicFile.Some? then topicFile.value else []
      ensures state == if topicFile.Some? && stopWordFile.Some? then Open else Unavailable
      ensures stopWords == if topicFile.Some? && stopWordFile.Some? then StopWordSet(stopWordFile.value) else {}
    {
      var words: set<string> := {};
      if topicFile.Some? && stopWordFile.Some? {
        words := LoadStopWords(stopWordFile.value);
      }
      lines := if topicFile.Some? then topicFile.value else [];
      stopWords := words;
      this.stem := stem;
      state := if topicFile.Some? && stopWordFile.Some? then Open else Unavailable;
      pos := 0;
    }

    /** True when a further "<top>" line was found, the cursor just past it;
        otherwise the lines are used up and the reader is closed. */
    method HasNext() returns (b: bool)
      requires Valid()
      modifies this`pos, this`state
      ensures Valid()
      ensures b <==> state == Open
      ensures old(state) != Open ==> state == old(state) && pos == old(pos)
      ensures old(state) == Open ==> b == FindTopStart(lines, old(pos)).Some?
      ensures old(state) == Open && b ==> pos == FindTopStart(lines, old(pos)).value + 1
      ensures old(state) == Open && !b ==> pos == |lines| && state == Closed
    {
      if state == Unavailable {
        return false;
      }
      var res := false;
      // On a closed reader readLine throws an IOException, which is caught: no next topic.
      if state == Open {
        res := MoveToTopStart();
      }
      if !res {
        CloseHandler();
      }
      return res;
    }

    /** The next topic; a reader that is null or closed yields an empty query. */
    method Next() returns (r: Result<Query, Failure>)
      requires Valid()
      modifies this`pos
      ensures Valid()
      ensures state != Open ==> r == Success(EmptyQuery) && pos == old(pos)
      ensures state == Open ==>
        match ParseTopic(lines, old(pos), stopWords, stem)
        case Success(p) => r == Success(p.query) && pos == p.next
        case Failure(e) => r == Failure(e) && pos == PosAfterFailure(e, lines)
    {
      if state == Unavailable {
        return Success(EmptyQuery);
      }
      ghost var start := pos;
      var id := PopulateTopicId();
      if id.Failure? {
        return Failure(id.error);
      }
      var original := ProcessOneTopic();
      if original.Failure? {
        return Failure(original.error);
      }
      var content := NormalizeString(original.value);
      r := Success(Query(id.value, content));
      if state == Closed {
        assert Normalize([], stopWords, stem) == [];
      } else {
        assert start < |lines| && CollectBody(lines, start + 1).Success?;
      }
    }

    /** Tokenises on the delimiter set and appends each non-empty
        lcNoStopStem result followed by a space. */
    method NormalizeString(original: string) returns (r: string)
      ensures r == Normalize(original, stopWords, stem)
    {
      var sb: string := [];
      var i := 0;
      while i < |original|
        invariant 0 <= i <= |original|
        invariant Normalize(original, stopWords, stem) == sb + Normalize(original[i..], stopWords, stem)
      {
        if IsDelimiter(original[i]) {
          NormalizeStepDelimiter(original, i, stopWords, stem);
          i := i + 1;
        } else {
          var j := TokenEnd(original, i);
          var token := original[i..j];
          var lcnss := LcNoStopStem(token, stopWords, stem);
          NormalizeAdvance(original, i, j, sb, stopWords, stem);
          if lcnss != [] {
            sb := sb + lcnss + " ";
          }
          i := j;
        }
      }
      assert original[|original|..] == [];
      r := sb;
    }

    /** StringTokenizer's scan for the end of the token starting at i. */
    static method TokenEnd(s: string, i: nat) returns (j: nat)
      requires i < |s| && !IsDelimiter(s[i])
      ensures i < j <= |s|
      ensures forall k :: i <= k < j ==> !IsDelimiter(s[k])
      ensures j < |s| ==> IsDelimiter(s[j])
    {
      j := i;
      while j < |s| && !IsDelimiter(s[j])
        invariant i <= j <= |s|
        invariant forall k :: i <= k < j ==> !IsDelimiter(s[k])
      {
        j := j + 1;
      }
    }

    /** Reads the line after "<top>" and returns its first run of digits. */
    method PopulateTopicId() returns (r: Result<string, Failure>)
      requires Valid() && state != Unavailable
      modifies this`pos
      ensures Valid()
      ensures state == Closed ==> r == Success([]) && pos == old(pos)
      ensures state == Open && old(pos) == |lines| ==> r == Failure(MissingTopicIdLine) && pos == old(pos)
      ensures state == Open && old(pos) < |lines| ==>
        r == Success(TopicId(lines[old(pos)])) && pos == old(pos) + 1
    {
      if state == Closed {
        // readLine throws an IOException, which is caught: ""
        return Success([]);
      }
      if pos == |lines| {
        // readLine returns null and matching against it fails
        return Failure(MissingTopicIdLine);
      }
      var data := lines[pos];
      pos := pos + 1;
      var id := TopicId(data);
      TrimNoOp(id);
      return Success(Trim(id));
    }

    /** Skips lines up to and including the next start line. */
    method MoveToTopStart() returns (found: bool)
      requires Valid() && state == Open
      modifies this`pos
      ensures Valid()
      ensures found == FindTopStart(lines, old(pos)).Some?
      ensures pos == if found then FindTopStart(lines, old(pos)).value + 1 else |lines|
    {
      while pos < |lines|
        invariant old(pos) <= pos <= |lines|
        invariant FindTopStart(lines, old(pos)) == FindTopStart(lines, pos)
        decreases |lines| - pos
      {
        var data := lines[pos];
        pos := pos + 1;
        if StartsWith(Trim(data), "<top>") {
          return true;
        }
      }
      return false;
    }

    /** Gathers the body of the current topic up to its "</top>" line. */
    method ProcessOneTopic() returns (r: Result<string, Failure>)
      requires Valid() && state != Unavailable
      modifies this`pos
      ensures Valid()
      ensures state == Closed ==> r == Success([]) && pos == old(pos)
      ensures state == Open ==>
        match CollectBody(lines, old(pos))
        case Success(b) => r == Success(b.text) && pos == b.next
        case Failure(e) => r == Failure(e) && pos == PosAfterFailure(e, lines)
    {
      if state == Closed {
        // readLine throws an IOException, which is caught: ""
        return Success([]);
      }
      var sb: string := [];
      PrependNothing(CollectBody(lines, pos));
      while true
        invariant old(pos) <= pos <= |lines|
        invariant CollectBody(lines, old(pos)) == PrependText(sb, CollectBody(lines, pos))
        decreases |lines| - pos
      {
        CollectBodyStops(lines, pos);
        if pos == |lines| {
          // readLine returns null and null.startsWith fails
          return Failure(MissingTopEnd);
        }
        var line := lines[pos];
        pos := pos + 1;
        if StartsWith(line, "</top>") {
          assert sb + [] == sb;
          return Success(sb);
        }
        var processed := Trim(line);
        if StartsWith(processed, "<title>") {
          if |processed| < 8 {
            // substring(8) is out of range
            return Failure(TitleTooShort(pos - 1));
          }
          processed := processed[8..];
        } else if StartsWith(processed, "<desc>") || StartsWith(processed, "<narr>") {
          // the space is appended, the line itself is skipped
          processed := [];
        }
        CollectBodyStep(lines, pos - 1, sb);
        sb := sb + " " + processed;
      }
    }

    method CloseHandler()
      modifies this`state
      ensures state == if old(state) == Unavailable then Unavailable else Closed
    {
      if state == Unavailable {
        return;
      }
      state := Closed;
    }
  }
}
