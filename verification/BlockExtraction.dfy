/** Finding the auth block in a source text by counting braces, whatever they stand in, and which sources are read to
    which entry tree. */
module BlockExtraction {
  import opened Prelude
  import opened Text
  import opened Parsing
  import opened Renderings
  import opened ParsingComplete
  import ParsingFaults

  datatype BlockError = MissingMark | MissingOpen | MissingClose | SeveralMarks | Malformed(error: Parsing.Error)

  const MARK := "use auth"

  // ----- What is extracted --------------------------------------------------------------------------

  /** The first place from `i` on where `part` stands. */
  function FindFrom(s: string, part: string, i: nat): (r: Option<nat>)
    requires i <= |s|
    ensures r.Some? ==> i <= r.value && StartsAt(s, part, r.value) && forall j :: i <= j < r.value ==> !StartsAt(s, part, j)
    ensures r.None? ==> forall j :: i <= j <= |s| ==> !StartsAt(s, part, j)
    decreases |s| - i
  {
    if StartsAt(s, part, i) then Some(i) else if i == |s| then None else FindFrom(s, part, i + 1)
  }

  /** The brace that closes `depth` open ones. */
  function CloseFrom(s: string, i: nat, depth: nat): (r: Option<nat>)
    requires i <= |s|
    ensures r.Some? ==> i <= r.value < |s|
    decreases |s| - i
  {
    if i == |s| then None
    else if s[i] == '{' then CloseFrom(s, i + 1, depth + 1)
    else if s[i] != '}' then CloseFrom(s, i + 1, depth)
    else if depth <= 1 then Some(i)
    else CloseFrom(s, i + 1, depth - 1)
  }

  function Extract(src: string): Result<string, BlockError> {
    match FindFrom(src, MARK, 0)
    case None => Err(MissingMark)
    case Some(start) =>
      match FindFrom(src, "{", start)
      case None => Err(MissingOpen)
      case Some(open) =>
        match CloseFrom(src, open + 1, 1)
        case None => Err(MissingClose)
        case Some(close) => Ok(src[open + 1..close])
  }

  method ExtractAuthBlock(src: string) returns (r: Result<string, BlockError>)
    ensures r == Extract(src)
  {
    var start := FindFrom(src, MARK, 0);
    if start.None? {
      return Err(MissingMark);
    }
    var open := FindFrom(src, "{", start.value);
    if open.None? {
      return Err(MissingOpen);
    }
    assert src[open.value] == "{"[0];
    var depth := 0;
    var close: Option<nat> := None;
    var i := open.value;
    while i < |src|
      invariant open.value <= i <= |src|
      invariant i > open.value ==> depth >= 1
      invariant i == open.value ==> depth == 0
      invariant i > open.value ==> CloseFrom(src, open.value + 1, 1) == CloseFrom(src, i, depth)
    {
      if src[i] == '{' {
        depth := depth + 1;
      } else if src[i] == '}' {
        depth := depth - 1;
        if depth == 0 {
          close := Some(i);
          break;
        }
      }
      i := i + 1;
    }
    if close.None? {
      return Err(MissingClose);
    }
    r := Ok(src[open.value + 1..close.value]);
  }

  /** The entries of the one auth block of a source; the mark alone declares nothing. */
  function ReadBlock(src: string): Result<seq<Entry>, BlockError> {
    var start := FindFrom(src, MARK, 0);
    if Trimmed(src) == MARK then Ok([])
    else if start.Some? && FindFrom(src, MARK, start.value + |MARK|).Some? then Err(SeveralMarks)
    else match Extract(src)
      case Err(e) => Err(e)
      case Ok(body) =>
        match ParseEntries(body, false)
        case Err(e) => Err(Malformed(e))
        case Ok(read) => Ok(read.value)
  }

  // ----- Braces -------------------------------------------------------------------------------------

  function Weight(c: char): int {
    if c == '{' then 1 else if c == '}' then -1 else 0
  }

  /** How many more braces are opened than closed. */
  function Surplus(s: string): int {
    if s == "" then 0 else Weight(s[0]) + Surplus(s[1..])
  }

  /** Every brace that is closed was opened before, and all are. */
  ghost predicate Balanced(s: string) {
    Surplus(s) == 0 && forall i :: 0 <= i <= |s| ==> Surplus(s[..i]) >= 0
  }

  lemma {:induction false} SurplusJoins(a: string, b: string)
    ensures Surplus(a + b) == Surplus(a) + Surplus(b)
  {
    if a == "" {
      assert a + b == b;
    } else {
      SurplusJoins(a[1..], b);
      assert (a + b)[1..] == a[1..] + b;
    }
  }

  /** Reading from `i` up to `j` leaves some brace open. */
  ghost predicate StillOpen(s: string, i: nat, depth: nat, j: nat)
    requires i <= j <= |s|
  {
    Surplus(s[i..j]) + depth >= 1
  }

  /** `c` is where the braces opened before `i` are all closed. */
  ghost predicate ClosesAt(s: string, i: nat, depth: nat, c: nat) {
    && i <= c < |s| && s[c] == '}' && Surplus(s[i..c]) + depth == 1
    && forall j :: i <= j <= c ==> StillOpen(s, i, depth, j)
  }

  lemma SurplusFrom(s: string, i: nat, j: nat)
    requires i < j <= |s|
    ensures Surplus(s[i..j]) == Weight(s[i]) + Surplus(s[i + 1..j])
  {
    assert s[i..j][1..] == s[i + 1..j];
  }

  /** One character further on. */
  lemma ClosesNext(s: string, i: nat, depth: nat, c: nat)
    requires i < |s| && depth >= 1 && depth + Weight(s[i]) >= 1
    ensures ClosesAt(s, i, depth, c) <==> ClosesAt(s, i + 1, depth + Weight(s[i]), c)
  {
    hide Surplus, Weight;
    var next, k := depth + Weight(s[i]), i + 1;
    forall j | i < j <= |s| ensures StillOpen(s, i, depth, j) <==> StillOpen(s, k, next, j) {
      SurplusFrom(s, i, j);
    }
    assert s[i..i] == "" && Surplus("") == 0 by { NoSurplus(s, i); }
    if i < c < |s| {
      SurplusFrom(s, i, c);
    }
    if c == i < |s| && s[c] == '}' {
      assert Weight('}') == -1 by { BraceWeights(); }
    }
    if ClosesAt(s, i + 1, next, c) {
      forall j | i <= j <= c ensures StillOpen(s, i, depth, j) {
        assert j > i ==> StillOpen(s, k, next, j);
      }
    }
    if ClosesAt(s, i, depth, c) {
      forall j | k <= j <= c ensures StillOpen(s, k, next, j) {
        assert StillOpen(s, i, depth, j);
      }
    }
  }

  lemma NoSurplus(s: string, i: nat)
    requires i <= |s|
    ensures s[i..i] == "" && Surplus("") == 0
  {
  }

  lemma BraceWeights()
    ensures Weight('{') == 1 && Weight('}') == -1
  {
  }

  /** Where the last brace closes nothing can follow. */
  lemma ClosesHere(s: string, i: nat, c: nat)
    requires i < |s| && s[i] == '}'
    ensures ClosesAt(s, i, 1, c) <==> c == i
  {
    NoSurplus(s, i);
    if i < c < |s| {
      SurplusFrom(s, i, i + 1);
      NoSurplus(s, i + 1);
      assert !StillOpen(s, i, 1, i + 1);
    }
    if c == i {
      forall j | i <= j <= c ensures StillOpen(s, i, 1, j) {
        assert s[i..j] == "";
      }
    }
  }

  lemma {:induction false} CloseExactly(s: string, i: nat, depth: nat, c: nat)
    requires i <= |s| && depth >= 1
    ensures CloseFrom(s, i, depth) == Some(c) <==> ClosesAt(s, i, depth, c)
    decreases |s| - i
  {
    hide ClosesAt;
    if i == |s| {
      assert !ClosesAt(s, i, depth, c) by { NothingCloses(s, depth, c); }
    } else if depth + Weight(s[i]) >= 1 {
      ClosesNext(s, i, depth, c);
      CloseExactly(s, i + 1, depth + Weight(s[i]), c);
    } else {
      ClosesHere(s, i, c);
    }
  }

  lemma NothingCloses(s: string, depth: nat, c: nat)
    ensures !ClosesAt(s, |s|, depth, c)
  {
  }

  // ----- Which sources are read ---------------------------------------------------------------------

  /** The only auth block of the source has this body. */
  ghost predicate IsBlock(src: string, before: string, mid: string, body: string, after: string) {
    && src == before + MARK + mid + "{" + body + "}" + after
    && '{' !in mid && Balanced(body)
    && forall j :: 0 <= j < |before| ==> !StartsAt(src, MARK, j)
  }

  lemma CutAt(src: string, start: nat, open: nat, close: nat)
    requires StartsAt(src, MARK, start) && start + |MARK| <= open < close < |src| && src[open] == '{' && src[close] == '}'
    ensures src == src[..start] + MARK + src[start + |MARK|..open] + "{" + src[open + 1..close] + "}" + src[close + 1..]
  {
    assert src[start..start + |MARK|] == MARK;
    assert src[open..open + 1] == "{" && src[close..close + 1] == "}";
    assert src == src[..start] + src[start..start + |MARK|] + src[start + |MARK|..open] + src[open..open + 1]
                  + src[open + 1..close] + src[close..close + 1] + src[close + 1..];
  }

  lemma BodyCloses(src: string, open: nat, close: nat)
    requires open < close < |src| && src[close] == '}'
    ensures Balanced(src[open + 1..close]) <==> ClosesAt(src, open + 1, 1, close)
  {
    hide Surplus;
    var from, body := open + 1, src[open + 1..close];
    forall j | from <= j <= close ensures StillOpen(src, from, 1, j) <==> Surplus(body[..j - from]) >= 0 {
      assert src[from..j] == body[..j - from];
    }
    if ClosesAt(src, from, 1, close) {
      forall i | 0 <= i <= |body| ensures Surplus(body[..i]) >= 0 {
        assert StillOpen(src, from, 1, from + i);
      }
    }
  }

  /** Extraction yields exactly the bodies of blocks whose braces balance, counted blindly. */
  lemma ExtractedExactly(src: string, body: string)
    ensures Extract(src) == Ok(body) <==> exists before, mid, after :: IsBlock(src, before, mid, body, after)
  {
    if Extract(src) == Ok(body) {
      var before, mid, after := ExtractedIsBlock(src, body);
      assert IsBlock(src, before, mid, body, after);
    }
    if before, mid, after :| IsBlock(src, before, mid, body, after) {
      BlockIsExtracted(src, before, mid, body, after);
    }
  }

  /** The letters of the mark where it stands. */
  lemma MarkLetters(s: string, i: nat)
    requires StartsAt(s, MARK, i)
    ensures forall j :: i <= j < i + |MARK| ==> s[j] == MARK[j - i] && s[j] in MARK && s[j] != '{'
  {
    forall j | i <= j < i + |MARK| ensures s[j] == MARK[j - i] && s[j] in MARK && s[j] != '{' {
      assert s[i..i + |MARK|][j - i] == s[j];
    }
  }

  lemma BraceStands(s: string, j: nat)
    requires j < |s|
    ensures StartsAt(s, "{", j) <==> s[j] == '{'
  {
    assert s[j..j + 1] == [s[j]];
  }

  /** Where the first brace after the mark stands. */
  lemma FoundOpen(src: string, start: nat, open: nat)
    requires StartsAt(src, MARK, start) && FindFrom(src, "{", start) == Some(open)
    ensures start + |MARK| <= open < |src| && src[open] == '{' && '{' !in src[start + |MARK|..open]
  {
    BraceStands(src, open);
    MarkLetters(src, start);
    var mid := src[start + |MARK|..open];
    forall k | 0 <= k < |mid| ensures mid[k] != '{' {
      BraceStands(src, start + |MARK| + k);
    }
  }

  lemma ExtractedIsBlock(src: string, body: string) returns (before: string, mid: string, after: string)
    requires Extract(src) == Ok(body)
    ensures IsBlock(src, before, mid, body, after)
  {
    hide CloseFrom, Balanced, ClosesAt, StartsAt;
    var start := FindFrom(src, MARK, 0).value;
    var open := FindFrom(src, "{", start).value;
    var close := CloseFrom(src, open + 1, 1).value;
    FoundOpen(src, start, open);
    CloseExactly(src, open + 1, 1, close);
    assert src[close] == '}' by { CloserIsBrace(src, open + 1, close); }
    BodyCloses(src, open, close);
    before, mid, after := src[..start], src[start + |MARK|..open], src[close + 1..];
    CutAt(src, start, open, close);
  }

  lemma CloserIsBrace(s: string, i: nat, c: nat)
    requires ClosesAt(s, i, 1, c)
    ensures s[c] == '}'
  {
  }

  /** The places of the parts of a block. */
  lemma BlockPlaces(src: string, before: string, mid: string, body: string, after: string)
    requires src == before + MARK + mid + "{" + body + "}" + after
    ensures var (start, open) := (|before|, |before| + |MARK| + |mid|);
            var close := open + 1 + |body|;
            && close < |src| && src[open] == '{' && src[close] == '}' && src[open + 1..close] == body
            && src[start + |MARK|..open] == mid && StartsAt(src, MARK, start)
  {
    var start, open := |before|, |before| + |MARK| + |mid|;
    var head := before + MARK + mid;
    assert src == head + ("{" + body + "}" + after) && |head| == open;
    assert src[start..start + |MARK|] == MARK && src[start + |MARK|..open] == mid;
  }

  lemma BlockIsExtracted(src: string, before: string, mid: string, body: string, after: string)
    requires IsBlock(src, before, mid, body, after)
    ensures Extract(src) == Ok(body)
    ensures FindFrom(src, MARK, 0) == Some(|before|)
  {
    hide CloseFrom, Balanced, ClosesAt, StartsAt;
    var start, open := |before|, |before| + |MARK| + |mid|;
    var close := open + 1 + |body|;
    BlockPlaces(src, before, mid, body, after);
    MarkLetters(src, start);
    BraceStands(src, open);
    forall j | start <= j < open ensures !StartsAt(src, "{", j) {
      BraceStands(src, j);
      if j >= start + |MARK| {
        assert src[j] == mid[j - start - |MARK|];
      }
    }
    BodyCloses(src, open, close);
    CloseExactly(src, open + 1, 1, close);
  }

  /** Two marks never overlap. */
  lemma MarksApart(s: string, i: nat, j: nat)
    requires StartsAt(s, MARK, i) && StartsAt(s, MARK, j) && i < j
    ensures i + |MARK| <= j
  {
    MarkLetters(s, i);
    MarkLetters(s, j);
    assert s[j] == 'u' && s[j + 1] == 's' && s[i + 6] == 't';
    assert forall k :: 0 < k < |MARK| && MARK[k] == 'u' ==> k == 5;
  }

  /** The mark stands nowhere else. */
  ghost predicate OnlyMark(src: string, i: nat) {
    forall j :: 0 <= j <= |src| && StartsAt(src, MARK, j) ==> j == i
  }

  /** The mark stands here and nowhere else. */
  ghost predicate MarkedAt(src: string, i: int) {
    0 <= i <= |src| && StartsAt(src, MARK, i) && OnlyMark(src, i)
  }

  lemma OnlyMarkExactly(src: string)
    ensures var start := FindFrom(src, MARK, 0);
            start.Some? ==> (FindFrom(src, MARK, start.value + |MARK|).None? <==> OnlyMark(src, start.value))
  {
    var start := FindFrom(src, MARK, 0);
    if start.Some? && FindFrom(src, MARK, start.value + |MARK|).None? {
      forall j | 0 <= j <= |src| && StartsAt(src, MARK, j) ensures j == start.value {
        if j > start.value {
          MarksApart(src, start.value, j);
        }
      }
    }
  }

  /** Unless it stops at an error, the parser reads to the end. */
  lemma {:induction false} ReadToTheEnd(s: string)
    ensures ParseEntries(s, false).Ok? ==> ParseEntries(s, false).value.rest == ""
    decreases |s|
  {
    hide SkipTrivia, ParseIdent, ParseAfterKey;
    var t := SkipTrivia(s);
    if t != "" && t[0] != '}' {
      var key := ParseIdent(t);
      if key.Ok? {
        var value := ParseAfterKey(key.value.value, key.value.rest);
        if value.Ok? {
          ReadToTheEnd(value.value.rest);
        }
      }
    }
  }

  /** A source that is nothing but the mark holds it once and no brace. */
  lemma ShortIs(src: string)
    requires Trimmed(src) == MARK
    ensures '{' !in src && exists i :: MarkedAt(src, i)
  {
    hide Trimmed;
    var p := TrimSpan(src);
    MarkLetters(src, p);
    forall k | 0 <= k < |src| ensures src[k] != '{' {
      assert !IsWhitespace('{');
    }
    forall j | 0 <= j <= |src| && StartsAt(src, MARK, j) ensures j == p {
      MarkLetters(src, j);
      assert src[j] == 'u' && src[j + 7] == 'h' && !IsWhitespace('u') && !IsWhitespace('h');
    }
    assert MarkedAt(src, p);
  }

  lemma BlockIsLong(src: string, before: string, mid: string, body: string, after: string)
    requires src == before + MARK + mid + "{" + body + "}" + after
    ensures Trimmed(src) != MARK
  {
    hide Trimmed, IsWhitespace;
    BlockPlaces(src, before, mid, body, after);
    assert src[|before| + |MARK| + |mid|] in src;
    if Trimmed(src) == MARK {
      ShortIs(src);
    }
  }

  /** A source is read to an entry tree exactly when it is the mark alone and the tree empty, or it holds the mark once,
      followed by a block whose braces balance and whose body is a proper rendering of the tree. */
  lemma ReadExactly(src: string, tree: seq<Entry>)
    ensures ReadBlock(src) == Ok(tree) <==>
            || (Trimmed(src) == MARK && tree == [])
            || exists before, mid, f, after ::
                 FileOk(f) && EntriesValue(f.entries) == tree && IsBlock(src, before, mid, FileText(f), after)
                 && OnlyMark(src, |before|)
  {
    hide FileOk, FileText, EntriesValue, OnlyMark, Extract, ParseEntries, Trimmed, Balanced, StartsAt;
    OnlyMarkExactly(src);
    if ReadBlock(src) == Ok(tree) && Trimmed(src) != MARK {
      var body := Extract(src).value;
      var before, mid, after := ExtractedIsBlock(src, body);
      BlockIsExtracted(src, before, mid, body, after);
      ReadToTheEnd(body);
      AcceptedExactly(body, tree);
      var f :| FileOk(f) && FileText(f) == body && EntriesValue(f.entries) == tree;
      assert IsBlock(src, before, mid, FileText(f), after);
    }
    if before, mid, f, after :| FileOk(f) && EntriesValue(f.entries) == tree && IsBlock(src, before, mid, FileText(f), after)
                                && OnlyMark(src, |before|)
    {
      BlockIsLong(src, before, mid, FileText(f), after);
      BlockIsExtracted(src, before, mid, FileText(f), after);
      AcceptedExactly(FileText(f), tree);
    }
  }

  // ----- Why a source is refused --------------------------------------------------------------------

  ghost predicate HasBlock(src: string) {
    exists before, mid, body, after :: IsBlock(src, before, mid, body, after)
  }

  lemma MarksExactly(src: string)
    ensures var start := FindFrom(src, MARK, 0);
            && (start.None? <==> !HasText(src, MARK))
            && (start.Some? ==> (MarkedAt(src, start.value) <==> FindFrom(src, MARK, start.value + |MARK|).None?))
            && (forall i :: MarkedAt(src, i) ==> start == Some(i))
            && ((exists i, j :: 0 <= i < j <= |src| && StartsAt(src, MARK, i) && StartsAt(src, MARK, j)) <==>
                start.Some? && !MarkedAt(src, start.value))
  {
    OnlyMarkExactly(src);
    assert forall i :: 0 <= i <= |src| && StartsAt(src, MARK, i) ==> HasText(src, MARK);
  }

  lemma OpensExactly(src: string, start: nat)
    requires start <= |src|
    ensures FindFrom(src, "{", start).None? <==> '{' !in src[start..]
  {
    var open := FindFrom(src, "{", start);
    if open.Some? {
      BraceStands(src, open.value);
      assert src[start..][open.value - start] == '{';
    } else {
      forall k | 0 <= k < |src[start..]| ensures src[start..][k] != '{' {
        BraceStands(src, start + k);
      }
    }
  }

  lemma ExtractsExactly(src: string)
    ensures Extract(src).Ok? <==> HasBlock(src)
    ensures var start := FindFrom(src, MARK, 0);
            && (Extract(src) == Err(MissingMark) <==> start.None?)
            && (Extract(src) == Err(MissingOpen) <==> start.Some? && '{' !in src[start.value..])
            && (Extract(src).Err? ==> Extract(src).error in {MissingMark, MissingOpen, MissingClose})
  {
    hide IsBlock;
    if Extract(src).Ok? {
      ExtractedExactly(src, Extract(src).value);
    }
    if before, mid, body, after :| IsBlock(src, before, mid, body, after) {
      ExtractedExactly(src, body);
    }
    if FindFrom(src, MARK, 0).Some? {
      OpensExactly(src, FindFrom(src, MARK, 0).value);
    }
  }

  /** A source is refused for the one thing that is wrong with it: the mark missing, or standing twice; something beside
      the mark, but no opening brace behind it, or none that is ever closed; or, in the body of its block, what the parser
      finds wrong. */
  lemma RefusedExactly(src: string, e: Parsing.Error)
    ensures ReadBlock(src) == Err(MissingMark) <==> !HasText(src, MARK)
    ensures ReadBlock(src) == Err(SeveralMarks) <==>
            exists i, j :: 0 <= i < j <= |src| && StartsAt(src, MARK, i) && StartsAt(src, MARK, j)
    ensures ReadBlock(src) == Err(MissingOpen) <==> Trimmed(src) != MARK && exists i :: MarkedAt(src, i) && '{' !in src[i..]
    ensures ReadBlock(src) == Err(MissingClose) <==> exists i :: MarkedAt(src, i) && '{' in src[i..] && !HasBlock(src)
    ensures ReadBlock(src) == Err(Malformed(e)) <==>
            exists before, mid, fault, after ::
              && IsBlock(src, before, mid, ParsingFaults.FaultText(fault), after) && OnlyMark(src, |before|)
              && ParsingFaults.FaultOk(fault, false) && ParsingFaults.EntryError(fault) == e
  {
    hide IsBlock, Extract, ParseEntries, OnlyMark, StartsAt, HasText, Trimmed;
    var start := FindFrom(src, MARK, 0);
    if Trimmed(src) == MARK {
      ShortIs(src);
    }
    MarksExactly(src);
    ExtractsExactly(src);
    MalformedExactly(src, e);
    assert start.Some? && MarkedAt(src, start.value) ==> ReadBlock(src).Ok? || ReadBlock(src).error != SeveralMarks;
  }

  lemma MalformedExactly(src: string, e: Parsing.Error)
    ensures ReadBlock(src) == Err(Malformed(e)) <==>
            exists before, mid, fault, after ::
              && IsBlock(src, before, mid, ParsingFaults.FaultText(fault), after) && OnlyMark(src, |before|)
              && ParsingFaults.FaultOk(fault, false) && ParsingFaults.EntryError(fault) == e
  {
    hide Extract, ParseEntries, OnlyMark, Trimmed, Balanced, StartsAt, ParsingFaults.FaultText, ParsingFaults.FaultOk, ParsingFaults.EntryError;
    OnlyMarkExactly(src);
    ExtractsExactly(src);
    if ReadBlock(src) == Err(Malformed(e)) {
      var body := Extract(src).value;
      var before, mid, after := ExtractedIsBlock(src, body);
      BlockIsExtracted(src, before, mid, body, after);
      var fault := ParsingFaults.FaultShape(body, false);
      assert IsBlock(src, before, mid, ParsingFaults.FaultText(fault), after);
    }
    if before, mid, fault, after :| && IsBlock(src, before, mid, ParsingFaults.FaultText(fault), after) && OnlyMark(src, |before|)
                                    && ParsingFaults.FaultOk(fault, false) && ParsingFaults.EntryError(fault) == e
    {
      var body := ParsingFaults.FaultText(fault);
      BlockIsLong(src, before, mid, body, after);
      BlockIsExtracted(src, before, mid, body, after);
      ParsingFaults.FaultRefused(fault, false);
    }
  }

  // ----- Renderings whose braces balance ------------------------------------------------------------

  predicate Braceless(s: string) {
    '{' !in s && '}' !in s
  }

  /** No comment holds a brace. */
  predicate PlainTrivia(ts: seq<Trivium>) {
    forall t <- ts :: t.Comment? ==> Braceless(t.text)
  }

  predicate PlainItems(items: seq<Item>) {
    forall item <- items :: PlainTrivia(item.lead) && Braceless(item.word.text)
  }

  predicate PlainNodes(n: Node)
    decreases n
  {
    match n
    case WordNode(word) => Braceless(word.text)
    case ListNode(_, items, tail) => PlainItems(items) && PlainTrivia(tail)
    case BlockNode(entries, tail) => PlainEntryNodes(entries) && PlainTrivia(tail)
  }

  predicate PlainEntryNodes(es: seq<EntryNode>)
    decreases es
  {
    es == [] ||
    (PlainTrivia(es[0].lead) && PlainTrivia(es[0].mid) && PlainTrivia(es[0].gap) && PlainNodes(es[0].node)
     && PlainEntryNodes(es[1..]))
  }

  /** No brace stands in a comment, a quoted text or a word. */
  predicate NoHiddenBraces(f: File) {
    && PlainEntryNodes(f.entries) && PlainTrivia(f.tail)
    && (f.unended.Some? && f.unended.value.Comment? ==> Braceless(f.unended.value.text))
  }

  lemma {:induction false} BracelessBalances(s: string)
    requires Braceless(s)
    ensures Balanced(s) && Surplus(s) == 0
  {
    forall i | 0 <= i <= |s| ensures Surplus(s[..i]) == 0 {
      NoBraceNoSurplus(s[..i]);
    }
    assert s[..|s|] == s;
  }

  lemma {:induction false} NoBraceNoSurplus(s: string)
    requires Braceless(s)
    ensures Surplus(s) == 0
  {
    if s != "" {
      NoBraceNoSurplus(s[1..]);
      assert s[0] in s;
    }
  }

  lemma BalancedJoin(a: string, b: string)
    requires Balanced(a) && Balanced(b)
    ensures Balanced(a + b)
  {
    hide Surplus;
    SurplusJoins(a, b);
    forall i | 0 <= i <= |a + b| ensures Surplus((a + b)[..i]) >= 0 {
      if i <= |a| {
        assert (a + b)[..i] == a[..i];
      } else {
        assert (a + b)[..i] == a + b[..i - |a|];
        SurplusJoins(a, b[..i - |a|]);
      }
    }
  }

  lemma BalancedWrap(a: string)
    requires Balanced(a)
    ensures Balanced("{" + a + "}")
  {
    var s := "{" + a + "}";
    assert Surplus("{") == 1 && Surplus("}") == -1 && Surplus("") == 0 by {
      assert "{"[1..] == "" && "}"[1..] == "";
    }
    assert s == "{" + (a + "}");
    SurplusJoins(a, "}");
    SurplusJoins("{", a + "}");
    forall i | 0 <= i <= |s| ensures Surplus(s[..i]) >= 0 {
      if i == 0 {
        assert s[..i] == "";
      } else if i <= |a| + 1 {
        assert s[..i] == "{" + a[..i - 1];
        SurplusJoins("{", a[..i - 1]);
      } else {
        assert s[..i] == s;
      }
    }
  }

  lemma BracelessJoin(a: string, b: string)
    requires Braceless(a) && Braceless(b)
    ensures Braceless(a + b)
  {
  }

  lemma {:induction false} TriviaAreBraceless(ts: seq<Trivium>)
    requires TriviaOk(ts) && PlainTrivia(ts)
    ensures Braceless(TriviaText(ts))
  {
    if ts != [] {
      TriviaAreBraceless(ts[1..]);
      assert ts[0] in ts && TriviumOk(ts[0]);
      BracelessJoin(TriviumText(ts[0]), TriviaText(ts[1..]));
    }
  }

  lemma {:induction false} ItemsAreBraceless(items: seq<Item>, glued: bool)
    requires ItemsOk(items, glued) && PlainItems(items)
    ensures Braceless(ItemsText(items))
  {
    if items != [] {
      ItemsAreBraceless(items[1..], !items[0].word.quoted);
      TriviaAreBraceless(items[0].lead);
      BracelessJoin(TriviaText(items[0].lead), WordText(items[0].word));
      BracelessJoin(TriviaText(items[0].lead) + WordText(items[0].word), ItemsText(items[1..]));
    }
  }

  lemma IdentIsBraceless(s: string)
    requires IsIdent(s)
    ensures Braceless(s)
  {
  }

  lemma ListIsBraceless(isEnum: bool, items: seq<Item>, tail: seq<Trivium>)
    requires ItemsOk(items, false) && TriviaOk(tail) && PlainItems(items) && PlainTrivia(tail)
    ensures Braceless(NodeText(ListNode(isEnum, items, tail)))
  {
    hide ItemsText, TriviaText;
    ItemsAreBraceless(items, false);
    TriviaAreBraceless(tail);
    var open := if isEnum then "enum[" else "[";
    BracelessJoin(open, ItemsText(items));
    BracelessJoin(open + ItemsText(items), TriviaText(tail));
    BracelessJoin(open + ItemsText(items) + TriviaText(tail), "]");
  }

  lemma WordIsBraceless(word: Word)
    requires Braceless(word.text)
    ensures Braceless(NodeText(WordNode(word)))
  {
  }

  lemma {:induction false} NodeBalances(n: Node)
    requires NodeOk(n) && PlainNodes(n)
    ensures Balanced(NodeText(n))
    decreases n
  {
    hide Balanced, Braceless, TriviaText, ItemsText, EntriesText, PlainTrivia, TriviaOk, PlainItems, ItemsOk, WordText;
    match n {
      case WordNode(word) =>
        WordIsBraceless(word);
        BracelessBalances(NodeText(n));
      case ListNode(isEnum, items, tail) =>
        ListIsBraceless(isEnum, items, tail);
        BracelessBalances(NodeText(n));
      case BlockNode(entries, tail) =>
        EntriesBalance(entries, false);
        TriviaAreBraceless(tail);
        BracelessBalances(TriviaText(tail));
        BalancedJoin(EntriesText(entries), TriviaText(tail));
        BalancedWrap(EntriesText(entries) + TriviaText(tail));
        assert NodeText(n) == "{" + (EntriesText(entries) + TriviaText(tail)) + "}";
    }
  }

  lemma {:induction false} EntriesBalance(es: seq<EntryNode>, glued: bool)
    requires EntriesOk(es, glued) && PlainEntryNodes(es)
    ensures Balanced(EntriesText(es))
    decreases es
  {
    hide Balanced;
    if es == [] {
      BracelessBalances("");
    } else {
      var e := es[0];
      var head := TriviaText(e.lead) + e.key + TriviaText(e.mid) + SeparatorText(e.separator) + TriviaText(e.gap);
      TriviaAreBraceless(e.lead);
      TriviaAreBraceless(e.mid);
      TriviaAreBraceless(e.gap);
      IdentIsBraceless(e.key);
      BracelessBalances(head);
      NodeBalances(e.node);
      BalancedJoin(head, NodeText(e.node));
      EntriesBalance(es[1..], IsBareWord(e.node));
      BalancedJoin(head + NodeText(e.node), EntriesText(es[1..]));
    }
  }

  /** The braces of a proper rendering balance when none is hidden in a comment, a quoted text or a word. */
  lemma PlainFilesBalance(f: File)
    requires FileOk(f) && NoHiddenBraces(f)
    ensures Balanced(FileText(f))
  {
    hide Balanced, EntriesText, TriviaText;
    EntriesBalance(f.entries, false);
    TriviaAreBraceless(f.tail);
    BracelessBalances(TriviaText(f.tail));
    BracelessBalances(UnendedText(f.unended));
    BalancedJoin(EntriesText(f.entries), TriviaText(f.tail));
    BalancedJoin(EntriesText(f.entries) + TriviaText(f.tail), UnendedText(f.unended));
  }

  /** So writing such a rendering between braces after the mark, with the mark nowhere else, gives back its tree. */
  lemma WrittenBlocksAreRead(before: string, mid: string, f: File, after: string)
    requires FileOk(f) && NoHiddenBraces(f) && '{' !in mid
    requires OnlyMark(before + MARK + mid + "{" + FileText(f) + "}" + after, |before|)
    ensures ReadBlock(before + MARK + mid + "{" + FileText(f) + "}" + after) == Ok(EntriesValue(f.entries))
  {
    hide FileOk, FileText, EntriesValue, Balanced, ReadBlock;
    var src := before + MARK + mid + "{" + FileText(f) + "}" + after;
    PlainFilesBalance(f);
    assert IsBlock(src, before, mid, FileText(f), after);
    ReadExactly(src, EntriesValue(f.entries));
  }

  // ----- Trees that can be written into a source ------------------------------------------------------

  /** No quote, no brace and no mark. */
  predicate PlainText(s: string) {
    QuoteFree(s) && Braceless(s) && !HasText(s, MARK)
  }

  predicate PlainValue(v: Value)
    decreases v
  {
    match v
    case Scalar(text) => PlainText(text)
    case ListOf(items) => forall text <- items :: PlainText(text)
    case EnumOf(items) => forall text <- items :: PlainText(text)
    case Block(entries) => PlainTree(entries)
  }

  predicate PlainTree(entries: seq<Entry>)
    decreases entries
  {
    entries == [] || (IsIdent(entries[0].key) && PlainValue(entries[0].value) && PlainTree(entries[1..]))
  }

  lemma {:induction false} PlainValueFits(v: Value)
    requires PlainValue(v)
    ensures ValueOk(v) && PlainNodes(PlainNode(v))
    decreases v
  {
    hide PlainText;
    match v {
      case Scalar(text) => PlainTextMeans(text);
      case ListOf(items) => PlainItemsFit(items);
      case EnumOf(items) => PlainItemsFit(items);
      case Block(entries) => PlainTreeFits(entries);
    }
  }

  lemma PlainTextMeans(s: string)
    requires PlainText(s)
    ensures QuoteFree(s) && Braceless(s) && !HasText(s, MARK)
  {
  }

  lemma {:induction false} PlainItemsFit(texts: seq<string>)
    requires forall text <- texts :: PlainText(text)
    ensures (forall text <- texts :: QuoteFree(text)) && PlainItems(QuotedItems(texts))
  {
    hide PlainText;
    if texts != [] {
      PlainItemsFit(texts[1..]);
      assert texts == [texts[0]] + texts[1..];
      PlainTextMeans(texts[0]);
    }
  }

  lemma {:induction false} PlainTreeFits(entries: seq<Entry>)
    requires PlainTree(entries)
    ensures TreeOk(entries) && PlainEntryNodes(PlainEntries(entries))
    decreases entries
  {
    if entries != [] {
      PlainValueFits(entries[0].value);
      PlainTreeFits(entries[1..]);
      assert PlainEntries(entries)[1..] == PlainEntries(entries[1..]);
    }
  }

  /** A mark stands on one side of any character that is not in it. */
  lemma MarkOnOneSide(a: string, c: char, b: string)
    requires c !in MARK && !HasText(a, MARK) && !HasText(b, MARK)
    ensures !HasText(a + [c] + b, MARK)
  {
    var s := a + [c] + b;
    assert s[|a|] == c;
    if HasText(s, MARK) {
      var j :| 0 <= j <= |s| && StartsAt(s, MARK, j);
      MarkLetters(s, j);
      if j + |MARK| <= |a| {
        assert a[j..j + |MARK|] == s[j..j + |MARK|];
        assert StartsAt(a, MARK, j);
      } else if j > |a| {
        var k := j - |a| - 1;
        assert b[k..k + |MARK|] == s[j..j + |MARK|];
        assert StartsAt(b, MARK, k);
      }
    }
  }

  lemma MarkHasBlank(s: string)
    ensures HasText(s, MARK) ==> ' ' in s
  {
    if HasText(s, MARK) {
      var j :| 0 <= j <= |s| && StartsAt(s, MARK, j);
      MarkLetters(s, j);
      assert s[j + 3] == ' ';
    }
  }

  lemma IdentHasNoMark(s: string)
    requires IsIdent(s)
    ensures !HasText(s, MARK)
  {
    MarkHasBlank(s);
  }

  lemma NothingHasNoMark()
    ensures !HasText("", MARK) && !HasText("enum", MARK)
    ensures '"' !in MARK && ':' !in MARK && '{' !in MARK && '}' !in MARK && '[' !in MARK && ']' !in MARK
  {
  }

  lemma QuotedHasNoMark(text: string, rest: string)
    requires !HasText(text, MARK) && !HasText(rest, MARK)
    ensures !HasText("\"" + text + "\"" + rest, MARK)
  {
    hide HasText;
    NothingHasNoMark();
    MarkOnOneSide(text, '"', rest);
    MarkOnOneSide("", '"', text + "\"" + rest);
    assert "\"" + text + "\"" + rest == "" + "\"" + (text + "\"" + rest);
  }

  lemma ItemsTextIs(texts: seq<string>)
    requires texts != []
    ensures ItemsText(QuotedItems(texts)) == "\"" + texts[0] + "\"" + ItemsText(QuotedItems(texts[1..]))
  {
    hide TriviaText, WordText;
    var item := Item([], Word(texts[0], true));
    assert QuotedItems(texts) == [item] + QuotedItems(texts[1..]);
    assert QuotedItems(texts)[1..] == QuotedItems(texts[1..]) && QuotedItems(texts)[0] == item;
    FirstItem(QuotedItems(texts));
    QuotedWord(texts[0]);
  }

  lemma FirstItem(items: seq<Item>)
    requires items != [] && items[0].lead == []
    ensures ItemsText(items) == WordText(items[0].word) + ItemsText(items[1..])
  {
    assert TriviaText([]) == "";
    assert "" + WordText(items[0].word) == WordText(items[0].word);
  }

  lemma QuotedWord(text: string)
    ensures WordText(Word(text, true)) == "\"" + text + "\""
  {
  }

  lemma NoItems()
    ensures ItemsText(QuotedItems([])) == "" && EntriesText(PlainEntries([])) == ""
  {
  }

  lemma Regroup(a: string, b: string, c: string)
    ensures (a + b) + c == a + (b + c)
  {
  }

  lemma {:induction false} ItemsHaveNoMark(texts: seq<string>, rest: string)
    requires (forall text <- texts :: PlainText(text)) && !HasText(rest, MARK)
    ensures !HasText(ItemsText(QuotedItems(texts)) + rest, MARK)
  {
    hide HasText, PlainText, ItemsText, QuotedItems;
    if texts == [] {
      assert ItemsText(QuotedItems(texts)) == "" by { NoItems(); }
      assert "" + rest == rest;
    } else {
      ItemsHaveNoMark(texts[1..], rest);
      PlainTextMeans(texts[0]);
      var more := ItemsText(QuotedItems(texts[1..]));
      QuotedHasNoMark(texts[0], more + rest);
      ItemsTextIs(texts);
      Regroup("\"" + texts[0] + "\"", more, rest);
    }
  }

  lemma BracketsHaveNoMark(head: string, inside: string, rest: string)
    requires !HasText(head, MARK) && !HasText(inside + "]" + rest, MARK)
    ensures !HasText(head + "[" + inside + "]" + rest, MARK)
  {
    hide HasText;
    NothingHasNoMark();
    MarkOnOneSide(head, '[', inside + "]" + rest);
    assert head + "[" + inside + "]" + rest == head + "[" + (inside + "]" + rest);
  }

  lemma {:induction false} ListHasNoMark(isEnum: bool, texts: seq<string>, rest: string)
    requires (forall text <- texts :: PlainText(text)) && !HasText(rest, MARK)
    ensures !HasText(NodeText(ListNode(isEnum, QuotedItems(texts), [])) + rest, MARK)
  {
    hide HasText, PlainText;
    NothingHasNoMark();
    MarkOnOneSide("", ']', rest);
    assert "" + "]" + rest == "]" + rest;
    ItemsHaveNoMark(texts, "]" + rest);
    var inside := ItemsText(QuotedItems(texts));
    assert inside + ("]" + rest) == inside + "]" + rest;
    BracketsHaveNoMark(if isEnum then "enum" else "", inside, rest);
    assert NodeText(ListNode(isEnum, QuotedItems(texts), [])) + rest ==
           (if isEnum then "enum" else "") + "[" + inside + "]" + rest;
  }

  lemma {:induction false} NodeHasNoMark(v: Value, rest: string)
    requires PlainValue(v) && !HasText(rest, MARK)
    ensures !HasText(NodeText(PlainNode(v)) + rest, MARK)
    decreases v
  {
    hide HasText, PlainText, ItemsText, EntriesText;
    match v {
      case Scalar(text) =>
        PlainTextMeans(text);
        QuotedHasNoMark(text, rest);
      case ListOf(items) => ListHasNoMark(false, items, rest);
      case EnumOf(items) => ListHasNoMark(true, items, rest);
      case Block(entries) =>
        NothingHasNoMark();
        MarkOnOneSide("", '}', rest);
        assert "" + "}" + rest == "}" + rest;
        TreeHasNoMark(entries, "}" + rest);
        var inside := EntriesText(PlainEntries(entries));
        MarkOnOneSide("", '{', inside + ("}" + rest));
        assert NodeText(PlainNode(v)) == "{" + inside + "" + "}";
        assert NodeText(PlainNode(v)) + rest == "" + "{" + (inside + ("}" + rest));
    }
  }

  lemma {:induction false} TreeHasNoMark(entries: seq<Entry>, rest: string)
    requires PlainTree(entries) && !HasText(rest, MARK)
    ensures !HasText(EntriesText(PlainEntries(entries)) + rest, MARK)
    decreases entries
  {
    hide HasText, NodeText, EntriesText, PlainEntries;
    if entries == [] {
      assert EntriesText(PlainEntries(entries)) == "" by { NoItems(); }
      assert "" + rest == rest;
    } else {
      var e, text := entries[0], NodeText(PlainNode(entries[0].value));
      var more := EntriesText(PlainEntries(entries[1..]));
      TreeHasNoMark(entries[1..], rest);
      NodeHasNoMark(e.value, more + rest);
      NothingHasNoMark();
      IdentHasNoMark(e.key);
      MarkOnOneSide(e.key, ':', text + (more + rest));
      EntriesTextIs(entries);
      Regroup(e.key + ":" + text, more, rest);
      Regroup(e.key + ":", text, more + rest);
    }
  }

  lemma EntriesTextIs(entries: seq<Entry>)
    requires entries != []
    ensures EntriesText(PlainEntries(entries)) ==
            entries[0].key + ":" + NodeText(PlainNode(entries[0].value)) + EntriesText(PlainEntries(entries[1..]))
  {
    hide NodeText, PlainNode, EntriesText, TriviaText;
    var e := EntryNode([], entries[0].key, [], Colon, [], PlainNode(entries[0].value));
    assert PlainEntries(entries) == [e] + PlainEntries(entries[1..]);
    assert PlainEntries(entries)[1..] == PlainEntries(entries[1..]) && PlainEntries(entries)[0] == e;
    FirstEntry(PlainEntries(entries));
  }

  lemma FirstEntry(es: seq<EntryNode>)
    requires es != [] && es[0].lead == es[0].mid == es[0].gap == [] && es[0].separator == Colon
    ensures EntriesText(es) == es[0].key + ":" + NodeText(es[0].node) + EntriesText(es[1..])
  {
    hide NodeText;
    assert TriviaText([]) == "";
    NoGaps(es[0].key, NodeText(es[0].node));
  }

  lemma NoGaps(key: string, text: string)
    ensures "" + key + "" + ":" + "" + text == key + ":" + text
  {
  }

  /** Every tree with identifier keys and plain texts is what some source is read to. */
  lemma EveryPlainTreeHasASource(entries: seq<Entry>) returns (src: string)
    requires PlainTree(entries)
    ensures ReadBlock(src) == Ok(entries)
  {
    hide ReadBlock, EntriesText, HasText, PlainEntryNodes, EntriesOk;
    var f := File(PlainEntries(entries), [], None);
    PlainTreeFits(entries);
    PlainEntriesFit(entries);
    assert FileText(f) == EntriesText(f.entries) + "" + "";
    NothingHasNoMark();
    MarkOnOneSide("", '}', "");
    assert "" + "}" + "" == "}";
    TreeHasNoMark(entries, "}");
    src := "" + MARK + "" + "{" + FileText(f) + "}" + "";
    assert src == MARK + "{" + (EntriesText(f.entries) + "}");
    MarkOnlyInFront(EntriesText(f.entries) + "}");
    WrittenBlocksAreRead("", "", f, "");
  }

  lemma MarkOnlyInFront(rest: string)
    requires !HasText(rest, MARK)
    ensures OnlyMark(MARK + "{" + rest, 0)
  {
    var src := MARK + "{" + rest;
    assert src[..|MARK|] == MARK;
    forall j | 0 <= j <= |src| && StartsAt(src, MARK, j) ensures j == 0 {
      if j > 0 {
        assert StartsAt(src, MARK, 0);
        MarksApart(src, 0, j);
        MarkLetters(src, j);
        assert src[|MARK|] == '{';
        var k := j - |MARK| - 1;
        assert rest[k..k + |MARK|] == src[j..j + |MARK|];
        assert StartsAt(rest, MARK, k);
        assert false;
      }
    }
  }

  // ----- A brace in quotes --------------------------------------------------------------------------

  const QUOTED := File([EntryNode([], "a", [], Colon, [], WordNode(Word("}", true)))], [], None)

  /** A closing brace in quotes ends the block early: the rendering is proper, but what is extracted is cut inside the
      quotes and cannot be parsed. */
  lemma BraceInQuotesCutsOff()
    ensures FileOk(QUOTED) && FileText(QUOTED) == "a:\"}\""
    ensures Extract(MARK + "{" + FileText(QUOTED) + "}") == Ok("a:\"")
    ensures ReadBlock(MARK + "{" + FileText(QUOTED) + "}") == Err(Malformed(UnterminatedString))
  {
    hide Extract, FindFrom, Balanced;
    var src, body := MARK + "{" + FileText(QUOTED) + "}", "a:\"";
    QuotedText();
    BracelessBalances(body);
    assert src == "" + MARK + "" + "{" + body + "}" + "\"}";
    assert IsBlock(src, "", "", body, "\"}");
    BlockIsExtracted(src, "", "", body, "\"}");
    assert OnlyMark(src, 0) by { ShortSource(src); }
    OnlyMarkExactly(src);
    BlockIsLong(src, "", "", body, "\"}");
    CutTextIsMalformed();
  }

  lemma QuotedText()
    ensures FileOk(QUOTED) && FileText(QUOTED) == "a:\"}\""
  {
    assert QUOTED.entries[1..] == [];
  }

  lemma ShortSource(src: string)
    requires StartsAt(src, MARK, 0) && |src| < 2 * |MARK|
    ensures OnlyMark(src, 0)
  {
    forall j | 0 <= j <= |src| && StartsAt(src, MARK, j) ensures j == 0 {
      if j > 0 {
        MarksApart(src, 0, j);
      }
    }
  }

  lemma CutTextIsMalformed()
    ensures ParseEntries("a:\"", false) == Err(UnterminatedString)
  {
    hide ParseList, ParseIdent, TakeIdent;
    assert "a:\""[1..] == ":\"" && ":\""[1..] == "\"" && "\""[1..] == "";
    assert ParseIdent("a:\"") == Ok(Read("a", ":\"")) by { IdentBeforeColon(); }
    assert SkipTrivia("a:\"") == "a:\"" && SkipTrivia(":\"") == ":\"" && SkipTrivia("\"") == "\"";
    assert ParseValue("\"") == Err(UnterminatedString);
    assert ParseAfterKey("a", ":\"") == Err(UnterminatedString);
  }

  lemma IdentBeforeColon()
    ensures ParseIdent("a:\"") == Ok(Read("a", ":\""))
  {
    assert "a:\""[1..] == ":\"" && TakeIdent(":\"") == Read("", ":\"");
    assert ['a'] + "" == "a";
  }
}
