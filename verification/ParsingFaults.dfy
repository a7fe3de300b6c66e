/** The texts the parser refuses, and why: how far each is well made, and what stands where something else should. */
module ParsingFaults {
  import opened Prelude
  import opened Parsing
  import opened Renderings
  import opened ParsingExact
  import opened ParsingComplete

  /** Trivia, and where the whole text ends perhaps a comment without its line end. */
  datatype Gap = Gap(trivia: seq<Trivium>, unended: Option<Trivium>)

  datatype ListFault =
    | NoItem(lead: Gap, rest: string)
    | OpenItem(lead: Gap, text: string)
    | LaterInList(item: Item, fault: ListFault)

  datatype ValueFault =
    | NoValue(gap: Gap, rest: string)
    | OpenText(gap: Gap, text: string)
    | InList(gap: Gap, isEnum: bool, list: ListFault)
    | InBlock(gap: Gap, block: Fault)

  datatype Fault =
    | NoEntry(lead: Gap, rest: string)
    | NoSeparator(lead: Gap, key: string, mid: Gap, rest: string)
    | InValue(lead: Gap, key: string, mid: Gap, separator: Separator, value: ValueFault)
    | Later(entry: EntryNode, fault: Fault)

  // ----- Text ---------------------------------------------------------------------------------------

  function GapText(g: Gap): string {
    TriviaText(g.trivia) + UnendedText(g.unended)
  }

  function ListFaultText(f: ListFault): string {
    match f
    case NoItem(lead, rest) => GapText(lead) + rest
    case OpenItem(lead, text) => GapText(lead) + ("\"" + text)
    case LaterInList(item, fault) => TriviaText(item.lead) + (WordText(item.word) + ListFaultText(fault))
  }

  function ValueFaultText(f: ValueFault): string
    decreases f
  {
    match f
    case NoValue(gap, rest) => GapText(gap) + rest
    case OpenText(gap, text) => GapText(gap) + ("\"" + text)
    case InList(gap, isEnum, list) => GapText(gap) + ((if isEnum then "enum" else "") + ("[" + ListFaultText(list)))
    case InBlock(gap, block) => GapText(gap) + ("{" + FaultText(block))
  }

  function FaultText(f: Fault): string
    decreases f
  {
    match f
    case NoEntry(lead, rest) => GapText(lead) + rest
    case NoSeparator(lead, key, mid, rest) => GapText(lead) + (key + (GapText(mid) + rest))
    case InValue(lead, key, mid, separator, value) =>
      GapText(lead) + (key + (GapText(mid) + (SeparatorText(separator) + ValueFaultText(value))))
    case Later(e, fault) =>
      TriviaText(e.lead) + (e.key + (TriviaText(e.mid) + (SeparatorText(e.separator) +
      (TriviaText(e.gap) + (NodeText(e.node) + FaultText(fault))))))
  }

  // ----- Which faults are proper --------------------------------------------------------------------

  /** The gap reaches up to `rest`, which is no part of it. */
  ghost predicate GapOk(g: Gap, rest: string) {
    && TriviaOk(g.trivia) && AtToken(rest)
    && (g.unended.Some? ==> g.unended.value.Comment? && TriviumOk(g.unended.value) && rest == "")
  }

  /** A bare word ends here and opens no list of values. */
  ghost predicate EndsBefore(w: Word, rest: string) {
    !w.quoted ==> NoIdentAt(rest) && !(w.text == "enum" && rest != "" && rest[0] == '[')
  }

  ghost predicate ListFaultOk(f: ListFault) {
    match f
    case NoItem(lead, rest) => GapOk(lead, rest) && (rest != "" ==> rest[0] !in "]\"" && !IsIdentChar(rest[0]))
    case OpenItem(lead, text) => GapOk(lead, "\"" + text) && '"' !in text
    case LaterInList(item, fault) =>
      TriviaOk(item.lead) && WordOk(item.word) && (!item.word.quoted ==> NoIdentAt(ListFaultText(fault))) && ListFaultOk(fault)
  }

  ghost predicate ValueFaultOk(f: ValueFault)
    decreases f
  {
    match f
    case NoValue(gap, rest) => GapOk(gap, rest) && (rest != "" ==> rest[0] !in "{[\"" && !IsIdentChar(rest[0]))
    case OpenText(gap, text) => GapOk(gap, "\"" + text) && '"' !in text
    case InList(gap, _, list) => TriviaOk(gap.trivia) && gap.unended.None? && ListFaultOk(list)
    case InBlock(gap, block) => TriviaOk(gap.trivia) && gap.unended.None? && FaultOk(block, true)
  }

  /** `nested`: inside braces. A key is followed by a separator, or by an opening brace. */
  ghost predicate FaultOk(f: Fault, nested: bool)
    decreases f
  {
    match f
    case NoEntry(lead, rest) =>
      GapOk(lead, rest) && (if rest == "" then nested else if rest[0] == '}' then !nested else !IsIdentChar(rest[0]))
    case NoSeparator(lead, key, mid, rest) =>
      && TriviaOk(lead.trivia) && lead.unended.None? && IsIdent(key) && GapOk(mid, rest) && NoIdentAt(GapText(mid) + rest)
      && (rest == "" || rest[0] !in ":={")
    case InValue(lead, key, mid, separator, value) =>
      && TriviaOk(lead.trivia) && lead.unended.None? && IsIdent(key) && TriviaOk(mid.trivia) && mid.unended.None?
      && (separator.Bare? ==> value.InBlock? && value.gap == Gap([], None)) && ValueFaultOk(value)
    case Later(e, fault) =>
      && TriviaOk(e.lead) && IsIdent(e.key) && TriviaOk(e.mid) && TriviaOk(e.gap) && NodeOk(e.node)
      && (e.separator.Bare? ==> e.node.BlockNode? && e.gap == [])
      && (e.node.WordNode? ==> EndsBefore(e.node.word, FaultText(fault))) && FaultOk(fault, nested)
  }

  // ----- What is wrong ------------------------------------------------------------------------------

  function ListError(f: ListFault): Error {
    match f
    case NoItem(_, rest) => if rest == "" then MissingBracket else UnexpectedInList(rest[0])
    case OpenItem(_, _) => UnterminatedString
    case LaterInList(_, fault) => ListError(fault)
  }

  function ValueError(f: ValueFault): Error
    decreases f
  {
    match f
    case NoValue(_, rest) => if rest == "" then UnexpectedEnd else UnexpectedCharacter(rest[0])
    case OpenText(_, _) => UnterminatedString
    case InList(_, _, list) => ListError(list)
    case InBlock(_, block) => EntryError(block)
  }

  function EntryError(f: Fault): Error
    decreases f
  {
    match f
    case NoEntry(_, rest) =>
      if rest == "" then MissingBrace else if rest[0] == '}' then UnexpectedBrace else ExpectedIdentifier(rest[0])
    case NoSeparator(_, key, _, _) => ExpectedSeparator(key)
    case InValue(_, _, _, _, value) => ValueError(value)
    case Later(_, fault) => EntryError(fault)
  }

  // ----- Such texts are refused ---------------------------------------------------------------------

  lemma GapSkipped(g: Gap, rest: string)
    requires GapOk(g, rest)
    ensures SkipTrivia(GapText(g) + rest) == rest
  {
    hide SkipTrivia, TriviaText, AtToken;
    TokenStays(rest);
    TriviaSkipped(g.trivia, UnendedText(g.unended) + rest);
    assert GapText(g) + rest == TriviaText(g.trivia) + (UnendedText(g.unended) + rest);
    if g.unended.Some? {
      var c := g.unended.value;
      CommentSkipped(c.slashes, c.text, "");
      assert UnendedText(g.unended) + rest == CommentStart(c.slashes) + c.text;
    } else {
      assert UnendedText(g.unended) + rest == rest;
    }
  }

  lemma PlainGap(ts: seq<Trivium>)
    ensures GapText(Gap(ts, None)) == TriviaText(ts)
  {
    assert TriviaText(ts) + "" == TriviaText(ts);
  }

  lemma NoItemThere(s: string, t: string)
    requires SkipTrivia(s) == t && (t != "" ==> t[0] !in "]\"" && !IsIdentChar(t[0]))
    ensures ParseItems(s) == Err(if t == "" then MissingBracket else UnexpectedInList(t[0]))
  {
    hide SkipTrivia;
  }

  lemma OpenItemThere(s: string, text: string)
    requires SkipTrivia(s) == "\"" + text && '"' !in text
    ensures ParseItems(s) == Err(UnterminatedString)
  {
    hide SkipTrivia, TakeQuoted;
    NeverClosed(text);
    assert ("\"" + text)[1..] == text;
  }

  lemma WordIsItem(w: Word, more: string)
    requires WordOk(w) && (!w.quoted ==> NoIdentAt(more))
    ensures ParseItem(WordText(w) + more) == Ok(Read(Some(w.text), more))
  {
    hide TakeIdent, TakeQuoted;
    var s := WordText(w) + more;
    if w.quoted {
      QuotedIs(w.text, more);
      assert s[1..] == w.text + "\"" + more;
    } else {
      IdentIs(w.text, more);
      assert s[0] == w.text[0] && w.text[0] in w.text;
    }
  }

  lemma {:induction false} ListRefused(f: ListFault)
    requires ListFaultOk(f)
    ensures ParseItems(ListFaultText(f)) == Err(ListError(f))
  {
    hide ParseItems, ParseItem, SkipTrivia, TriviaText, WordText, GapText, GapOk, AtToken, TriviaOk, WordOk;
    match f {
      case NoItem(lead, rest) =>
        GapSkipped(lead, rest);
        NoItemThere(ListFaultText(f), rest);
      case OpenItem(lead, text) =>
        GapSkipped(lead, "\"" + text);
        OpenItemThere(ListFaultText(f), text);
      case LaterInList(item, fault) =>
        var more := ListFaultText(fault);
        ListRefused(fault);
        TriviaSkipped(item.lead, WordText(item.word) + more);
        WordIsAtToken(item.word, more);
        TokenStays(WordText(item.word) + more);
        WordIsItem(item.word, more);
        ParseItemsStep(ListFaultText(f), WordText(item.word) + more, item.word.text, more);
    }
  }

  lemma NoValueThere(s: string, t: string)
    requires SkipTrivia(s) == t && (t != "" ==> t[0] !in "{[\"" && !IsIdentChar(t[0]))
    ensures ParseValue(s) == Err(if t == "" then UnexpectedEnd else UnexpectedCharacter(t[0]))
  {
    hide SkipTrivia;
  }

  lemma OpenTextThere(s: string, text: string)
    requires SkipTrivia(s) == "\"" + text && '"' !in text
    ensures ParseValue(s) == Err(UnterminatedString)
  {
    hide SkipTrivia, TakeQuoted;
    NeverClosed(text);
    assert ("\"" + text)[1..] == text;
  }

  lemma BadListThere(s: string, isEnum: bool, items: string, e: Error)
    requires SkipTrivia(s) == (if isEnum then "enum" else "") + ("[" + items) && ParseItems(items) == Err(e)
    ensures ParseValue(s) == Err(e)
  {
    hide SkipTrivia, ParseItems, TakeIdent;
    var list := "[" + items;
    assert list[1..] == items;
    if isEnum {
      EnumIsIdent();
      IdentIs("enum", list);
      assert ("enum" + list)[0] == 'e';
    } else {
      assert "" + list == list;
    }
  }

  lemma BadBlockThere(s: string, inside: string, e: Error)
    requires SkipTrivia(s) == "{" + inside && ParseEntries(inside, true) == Err(e)
    ensures ParseValue(s) == Err(e)
  {
    hide SkipTrivia, ParseEntries;
    assert ("{" + inside)[1..] == inside;
  }

  lemma OpeningsAreTokens(rest: string)
    ensures AtToken("[" + rest) && AtToken("{" + rest) && AtToken("enum" + ("[" + rest)) && AtToken("\"" + rest)
    ensures "" + ("[" + rest) == "[" + rest
  {
    assert ("enum" + ("[" + rest))[0] == 'e';
  }

  lemma {:induction false} ValueRefused(f: ValueFault)
    requires ValueFaultOk(f)
    ensures ParseValue(ValueFaultText(f)) == Err(ValueError(f))
    decreases f
  {
    hide ParseValue, ParseEntries, ParseItems, SkipTrivia, GapText, AtToken, ListFaultText, ListFaultOk, TriviaOk;
    match f {
      case NoValue(gap, rest) =>
        GapSkipped(gap, rest);
        NoValueThere(ValueFaultText(f), rest);
      case OpenText(gap, text) =>
        GapSkipped(gap, "\"" + text);
        OpenTextThere(ValueFaultText(f), text);
      case InList(gap, isEnum, list) =>
        var items := ListFaultText(list);
        ListRefused(list);
        OpeningsAreTokens(items);
        GapSkipped(gap, (if isEnum then "enum" else "") + ("[" + items));
        BadListThere(ValueFaultText(f), isEnum, items, ListError(list));
      case InBlock(gap, block) =>
        FaultRefused(block, true);
        OpeningsAreTokens(FaultText(block));
        GapSkipped(gap, "{" + FaultText(block));
        BadBlockThere(ValueFaultText(f), FaultText(block), EntryError(block));
    }
  }

  lemma NoEntryThere(s: string, t: string, nested: bool)
    requires SkipTrivia(s) == t
    requires if t == "" then nested else if t[0] == '}' then !nested else !IsIdentChar(t[0])
    ensures ParseEntries(s, nested) ==
            Err(if t == "" then MissingBrace else if t[0] == '}' then UnexpectedBrace else ExpectedIdentifier(t[0]))
  {
    hide SkipTrivia;
  }

  lemma KeyThere(s: string, key: string, after: string, nested: bool)
    requires SkipTrivia(s) == key + after && IsIdent(key) && NoIdentAt(after)
    ensures ParseAfterKey(key, after).Err? ==> ParseEntries(s, nested) == Err(ParseAfterKey(key, after).error)
  {
    hide SkipTrivia, TakeIdent, ParseAfterKey;
    IdentIs(key, after);
    assert (key + after)[0] == key[0] && key[0] in key;
  }

  lemma NoSeparatorThere(key: string, s: string, t: string)
    requires SkipTrivia(s) == t && (t == "" || t[0] !in ":={")
    ensures ParseAfterKey(key, s) == Err(ExpectedSeparator(key))
  {
    hide SkipTrivia;
  }

  lemma ValueThere(key: string, s: string, separator: Separator, value: string)
    requires SkipTrivia(s) == SeparatorText(separator) + value && (separator.Bare? ==> value != "" && value[0] == '{')
    ensures ParseAfterKey(key, s) == ParseValue(value)
  {
    hide SkipTrivia, ParseValue;
    assert separator.Bare? ==> SeparatorText(separator) + value == value;
    assert !separator.Bare? ==> (SeparatorText(separator) + value)[1..] == value;
  }

  lemma SeparatorsAreTokens(separator: Separator, value: string)
    requires separator.Bare? ==> value != "" && value[0] == '{'
    ensures AtToken(SeparatorText(separator) + value) && NoIdentAt(SeparatorText(separator) + value)
  {
    assert separator.Bare? ==> SeparatorText(separator) + value == value;
  }

  lemma NoIdentAfterTrivia(ts: seq<Trivium>, more: string)
    requires TriviaOk(ts) && NoIdentAt(more)
    ensures NoIdentAt(TriviaText(ts) + more)
  {
    if ts == [] {
      assert TriviaText(ts) + more == more;
    } else {
      assert TriviumOk(ts[0]);
      assert (TriviaText(ts) + more)[0] == TriviumText(ts[0])[0];
    }
  }

  lemma {:induction false} FaultRefused(f: Fault, nested: bool)
    requires FaultOk(f, nested)
    ensures ParseEntries(FaultText(f), nested) == Err(EntryError(f))
    decreases f
  {
    hide ParseEntries, ParseAfterKey, ParseValue, SkipTrivia, GapText, AtToken, TriviaText, TriviaOk, IsIdent, NoIdentAt;
    hide NodeText, NodeOk, SeparatorText, EndsBefore;
    var s := FaultText(f);
    match f {
      case NoEntry(lead, rest) =>
        GapSkipped(lead, rest);
        NoEntryThere(s, rest, nested);
      case NoSeparator(lead, key, mid, rest) =>
        KeyIsNext(lead, key, GapText(mid) + rest);
        KeyThere(s, key, GapText(mid) + rest, nested);
        GapSkipped(mid, rest);
        NoSeparatorThere(key, GapText(mid) + rest, rest);
      case InValue(lead, key, mid, separator, value) =>
        var text := ValueFaultText(value);
        ValueRefused(value);
        if separator.Bare? {
          BareBlock(value);
        }
        SeparatorsAreTokens(separator, text);
        PlainGap(mid.trivia);
        NoIdentAfterTrivia(mid.trivia, SeparatorText(separator) + text);
        var after := GapText(mid) + (SeparatorText(separator) + text);
        KeyIsNext(lead, key, after);
        KeyThere(s, key, after, nested);
        GapSkipped(mid, SeparatorText(separator) + text);
        ValueThere(key, after, separator, text);
      case Later(e, fault) =>
        FaultRefused(fault, nested);
        EntryIsRead(e, FaultText(fault), nested);
    }
  }

  lemma KeyIsNext(lead: Gap, key: string, after: string)
    requires TriviaOk(lead.trivia) && lead.unended.None? && IsIdent(key)
    ensures SkipTrivia(GapText(lead) + (key + after)) == key + after
  {
    hide SkipTrivia;
    IdentIsAtToken(key, after);
    GapSkipped(lead, key + after);
  }

  lemma BareBlock(value: ValueFault)
    requires value.InBlock? && value.gap == Gap([], None)
    ensures ValueFaultText(value) == "{" + FaultText(value.block)
  {
    PlainGap([]);
    NoTrivia();
    assert "" + ("{" + FaultText(value.block)) == "{" + FaultText(value.block);
  }

  lemma WordIsValue(s: string, w: Word, rest: string)
    requires WordOk(w) && EndsBefore(w, rest) && SkipTrivia(s) == WordText(w) + rest
    ensures ParseValue(s) == Ok(Read(Scalar(w.text), rest))
  {
    hide SkipTrivia, TakeIdent, TakeQuoted;
    var t := WordText(w) + rest;
    if w.quoted {
      assert t[1..] == w.text + "\"" + rest;
      QuotedIs(w.text, rest);
    } else {
      IdentIs(w.text, rest);
      assert t[0] == w.text[0] && w.text[0] in w.text;
    }
  }

  lemma NodeIsRead(gap: seq<Trivium>, n: Node, rest: string)
    requires NodeOk(n) && TriviaOk(gap) && (n.WordNode? ==> EndsBefore(n.word, rest))
    ensures ParseValue(TriviaText(gap) + (NodeText(n) + rest)) == Ok(Read(NodeValue(n), rest))
  {
    hide ParseValue, SkipTrivia, TriviaText, NodeText, WordText, AtToken, EndsBefore;
    if n.WordNode? {
      TriviaSkipped(gap, NodeText(n) + rest);
      NodeIsAtToken(n, rest);
      TokenStays(NodeText(n) + rest);
      WordNodeText(n.word);
      WordIsValue(TriviaText(gap) + (NodeText(n) + rest), n.word, rest);
    } else {
      ValueParses(gap, n, rest);
    }
  }

  lemma EntryIsRead(e: EntryNode, more: string, nested: bool)
    requires TriviaOk(e.lead) && IsIdent(e.key) && TriviaOk(e.mid) && TriviaOk(e.gap) && NodeOk(e.node)
    requires e.separator.Bare? ==> e.node.BlockNode? && e.gap == []
    requires e.node.WordNode? ==> EndsBefore(e.node.word, more)
    ensures ParseEntries(TriviaText(e.lead) + (e.key + (TriviaText(e.mid) + (SeparatorText(e.separator) +
                         (TriviaText(e.gap) + (NodeText(e.node) + more))))), nested) ==
            Prepend(Entry(e.key, NodeValue(e.node)), ParseEntries(more, nested))
  {
    hide ParseEntries, ParseAfterKey, ParseValue, SkipTrivia, TriviaText, NodeText, SeparatorText, EndsBefore, WordEnds, NodeOk;
    var after := TriviaText(e.mid) + (SeparatorText(e.separator) + (TriviaText(e.gap) + (NodeText(e.node) + more)));
    NodeIsRead(e.gap, e.node, more);
    AfterKeyParses(e, more);
    KeyEnds(e, more);
    IdentIsAtToken(e.key, after);
    TokenStays(e.key + after);
    TriviaSkipped(e.lead, e.key + after);
    ParseEntriesStep(TriviaText(e.lead) + (e.key + after), e.key, after, NodeValue(e.node), more, nested);
  }

  // ----- Every refused text is such a text ----------------------------------------------------------

  lemma GapShape(s: string) returns (g: Gap)
    ensures GapOk(g, SkipTrivia(s)) && s == GapText(g) + SkipTrivia(s)
    ensures SkipTrivia(s) != "" ==> g.unended.None?
  {
    hide SkipTrivia, TriviaText, UnendedText, AtToken;
    var ts, unended := TriviaShape(s);
    g := Gap(ts, unended);
    SkipTwice(s);
  }

  lemma GapTrivia(g: Gap, rest: string)
    requires GapOk(g, rest)
    ensures TriviaOk(g.trivia)
  {
  }

  lemma ItemCases(t: string)
    requires ParseItem(t).Err?
    ensures if t == "" then ParseItem(t).error == MissingBracket
            else if t[0] == '"' then t == "\"" + t[1..] && '"' !in t[1..] && ParseItem(t).error == UnterminatedString
            else t[0] != ']' && !IsIdentChar(t[0]) && ParseItem(t).error == UnexpectedInList(t[0])
  {
    hide TakeQuoted, TakeIdent;
  }

  lemma ItemsCases(s: string)
    requires ParseItems(s).Err?
    ensures var (t, e) := (SkipTrivia(s), ParseItems(s).error);
            if ParseItem(t).Err? then ParseItem(t) == Err(e)
            else
              && t != "" && ParseItem(t).value.value.Some?
              && ParseItems(ParseItem(t).value.rest) == Err(e) && |ParseItem(t).value.rest| < |s|
  {
    hide SkipTrivia, ParseItem;
    assert ParseItem("").Err? by { EmptyIsNoItem(); }
  }

  lemma {:induction false} ListFaultShape(s: string) returns (f: ListFault)
    requires ParseItems(s).Err?
    ensures ListFaultOk(f) && ListFaultText(f) == s && ListError(f) == ParseItems(s).error
    decreases |s|
  {
    hide SkipTrivia, ParseItem, ParseItems, TriviaText, WordText, WordOk, TriviaOk, GapText, GapOk, IsIdentChar;
    var t := SkipTrivia(s);
    ItemsCases(s);
    var lead := GapShape(s);
    if ParseItem(t).Err? {
      ItemCases(t);
      f := if t != "" && t[0] == '"' then OpenItem(lead, t[1..]) else NoItem(lead, t);
    } else {
      BracketEnds(t);
      var word := WordShape(t);
      var rest := ParseItem(t).value.rest;
      var fault := ListFaultShape(rest);
      f := LaterInList(Item(lead.trivia, word), fault);
      PlainGap(lead.trivia);
      GapTrivia(lead, t);
    }
  }

  lemma ValueFaultCases(s: string)
    requires ParseValue(s).Err?
    ensures var (t, e) := (SkipTrivia(s), ParseValue(s).error);
            if t == "" then e == UnexpectedEnd
            else if t[0] == '{' then ParseEntries(t[1..], true) == Err(e) && t == "{" + t[1..]
            else if t[0] == '[' then ParseItems(t[1..]) == Err(e) && t == "[" + t[1..]
            else if t[0] == '"' then e == UnterminatedString && t == "\"" + t[1..] && '"' !in t[1..]
            else if IsIdentChar(t[0]) then
              && IsEnum(t) && TakeIdent(t).rest != ""
              && var list := TakeIdent(t).rest; t == "enum" + ("[" + list[1..]) && ParseItems(list[1..]) == Err(e)
            else e == UnexpectedCharacter(t[0])
  {
    hide SkipTrivia, ParseEntries, ParseItems, TakeQuoted;
    var t := SkipTrivia(s);
    if t != "" && IsIdentChar(t[0]) {
      var ident := TakeIdent(t);
      assert ident.value != "";
      assert t == ident.value + ident.rest;
      if IsEnum(t) {
        assert ident.rest == "[" + ident.rest[1..];
      }
    }
  }

  lemma {:induction false} ValueFaultShape(s: string) returns (f: ValueFault)
    requires ParseValue(s).Err?
    ensures ValueFaultOk(f) && ValueFaultText(f) == s && ValueError(f) == ParseValue(s).error
    ensures SkipTrivia(s) == s && s != "" && s[0] == '{' ==> f.InBlock? && f.gap == Gap([], None)
    decreases |s|, 0
  {
    hide SkipTrivia, ParseValue, ParseEntries, ParseItems, TakeIdent, IsEnum, TriviaText, TriviaOk, GapText, IsIdentChar;
    hide ListFaultOk, ListFaultText, AtToken, UnendedText;
    var t := SkipTrivia(s);
    ValueFaultCases(s);
    var gap := GapShape(s);
    assert |t| <= |s|;
    if t == "" {
      f := NoValue(gap, "");
    } else if t[0] == '{' {
      var block := FaultShape(t[1..], true);
      if s == t {
        gap := Gap([], None);
        PlainGap([]);
        NoTrivia();
        NoPrefix(t);
      }
      f := InBlock(gap, block);
    } else if t[0] == '[' {
      var list := ListFaultShape(t[1..]);
      f := InList(gap, false, list);
      NoPrefix(t);
    } else if t[0] == '"' {
      f := OpenText(gap, t[1..]);
    } else if IsIdentChar(t[0]) {
      var list := ListFaultShape(TakeIdent(t).rest[1..]);
      f := InList(gap, true, list);
    } else {
      f := NoValue(gap, t);
    }
  }

  lemma EntriesFaultCases(s: string, nested: bool)
    requires ParseEntries(s, nested).Err?
    ensures var (t, e) := (SkipTrivia(s), ParseEntries(s, nested).error);
            if t == "" then nested && e == MissingBrace
            else if t[0] == '}' then !nested && e == UnexpectedBrace
            else if !IsIdentChar(t[0]) then e == ExpectedIdentifier(t[0])
            else
              && ParseIdent(t).Ok?
              && var key := ParseIdent(t).value;
                 && IsIdent(key.value) && t == key.value + key.rest && NoIdentAt(key.rest) && |key.rest| < |s|
                 && if ParseAfterKey(key.value, key.rest).Err? then e == ParseAfterKey(key.value, key.rest).error
                    else
                      var value := ParseAfterKey(key.value, key.rest).value;
                      ParseEntries(value.rest, nested) == Err(e) && |value.rest| < |s|
  {
    hide SkipTrivia, ParseAfterKey;
  }

  lemma AfterKeyFaultCases(key: string, s: string)
    requires ParseAfterKey(key, s).Err?
    ensures var (t, e) := (SkipTrivia(s), ParseAfterKey(key, s).error);
            if t == "" || t[0] !in ":={" then e == ExpectedSeparator(key)
            else if t[0] == '{' then ParseValue(t) == Err(e)
            else ParseValue(t[1..]) == Err(e) && t == (if t[0] == ':' then ":" else "=") + t[1..]
  {
    hide SkipTrivia, ParseValue;
  }

  lemma {:induction false} FaultShape(s: string, nested: bool) returns (f: Fault)
    requires ParseEntries(s, nested).Err?
    ensures FaultOk(f, nested) && FaultText(f) == s && EntryError(f) == ParseEntries(s, nested).error
    decreases |s|, 2
  {
    hide SkipTrivia, ParseEntries, ParseAfterKey, ParseValue, ParseIdent, TriviaText, TriviaOk, GapText, IsIdentChar, IsIdent, AtToken;
    hide NodeText, NodeOk, SeparatorText, ValueFaultText, ValueFaultOk, EndsBefore, NodeValue, NoIdentAt, UnendedText;
    var t := SkipTrivia(s);
    EntriesFaultCases(s, nested);
    var lead := GapShape(s);
    if t == "" || t[0] == '}' || !IsIdentChar(t[0]) {
      f := NoEntry(lead, t);
    } else {
      var key := ParseIdent(t).value;
      PlainGap(lead.trivia);
      if ParseAfterKey(key.value, key.rest).Err? {
        f := KeyFaultShape(lead, key.value, key.rest, nested);
      } else {
        var mid, separator, gap, n := AfterKeyShape(key.value, key.rest);
        var rest := ParseAfterKey(key.value, key.rest).value.rest;
        var fault := FaultShape(rest, nested);
        var e := EntryNode(lead.trivia, key.value, mid, separator, gap, n);
        f := Later(e, fault);
        if n.WordNode? {
          WordEndsThere(mid, separator, gap, n, key.value, rest);
        }
      }
    }
  }

  lemma {:induction false} KeyFaultShape(lead: Gap, key: string, s: string, nested: bool) returns (f: Fault)
    requires TriviaOk(lead.trivia) && lead.unended.None? && IsIdent(key) && NoIdentAt(s) && ParseAfterKey(key, s).Err?
    ensures FaultOk(f, nested) && FaultText(f) == GapText(lead) + (key + s) && EntryError(f) == ParseAfterKey(key, s).error
    decreases |s|, 1
  {
    hide SkipTrivia, ParseAfterKey, ParseValue, TriviaText, TriviaOk, GapText, IsIdent, AtToken, ValueFaultText, ValueFaultOk, NoIdentAt;
    hide UnendedText;
    var t := SkipTrivia(s);
    AfterKeyFaultCases(key, s);
    var mid := GapShape(s);
    assert |t| <= |s|;
    if t == "" || t[0] !in ":={" {
      f := NoSeparator(lead, key, mid, t);
    } else if t[0] == '{' {
      SkipTwice(s);
      var value := ValueFaultShape(t);
      f := InValue(lead, key, mid, Bare, value);
      NoPrefix(t);
    } else {
      var value := ValueFaultShape(t[1..]);
      f := InValue(lead, key, mid, if t[0] == ':' then Colon else Equals, value);
    }
  }

  /** A bare word that was read as a text opened no list. */
  lemma WordEndsThere(mid: seq<Trivium>, separator: Separator, gap: seq<Trivium>, n: Node, key: string, rest: string)
    requires TriviaOk(mid) && TriviaOk(gap) && NodeOk(n) && n.WordNode? && !separator.Bare?
    requires IsBareWord(n) ==> NoIdentAt(rest)
    requires ParseAfterKey(key, TriviaText(mid) + (SeparatorText(separator) + (TriviaText(gap) + (NodeText(n) + rest))))
             == Ok(Read(NodeValue(n), rest))
    ensures EndsBefore(n.word, rest)
  {
    hide SkipTrivia, TriviaText, ParseValue, NodeText, TriviaOk, NodeOk, ParseAfterKey, TakeIdent;
    if !n.word.quoted && n.word.text == "enum" && rest != "" && rest[0] == '[' {
      var value := TriviaText(gap) + (NodeText(n) + rest);
      SeparatorsAreTokens(separator, value);
      TriviaSkipped(mid, SeparatorText(separator) + value);
      TokenStays(SeparatorText(separator) + value);
      ValueThere(key, TriviaText(mid) + (SeparatorText(separator) + value), separator, value);
      TriviaSkipped(gap, NodeText(n) + rest);
      NodeIsAtToken(n, rest);
      TokenStays(NodeText(n) + rest);
      WordNodeText(n.word);
      EnumIsNoText(value, rest);
    }
  }

  lemma EnumIsNoText(s: string, rest: string)
    requires SkipTrivia(s) == "enum" + rest && rest != "" && rest[0] == '['
    ensures ParseValue(s).Ok? ==> ParseValue(s).value.value.EnumOf?
  {
    hide SkipTrivia, TakeIdent, ParseList;
    EnumIsIdent();
    IdentIs("enum", rest);
    assert ("enum" + rest)[0] == 'e';
  }

  /** A text is refused, with a given error, exactly when it is made up like this and the error is what is wrong with it. */
  lemma RefusedExactly(s: string, nested: bool, e: Error)
    ensures ParseEntries(s, nested) == Err(e) <==> exists f :: FaultOk(f, nested) && FaultText(f) == s && EntryError(f) == e
  {
    hide ParseEntries, FaultOk, FaultText, EntryError;
    if ParseEntries(s, nested) == Err(e) {
      var f := FaultShape(s, nested);
    }
    if f :| FaultOk(f, nested) && FaultText(f) == s && EntryError(f) == e {
      FaultRefused(f, nested);
    }
  }
}
