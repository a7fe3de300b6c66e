/** The parser reads exactly the renderings of entry trees, and reads each back as its tree. */
module ParsingExact {
  import opened Prelude
  import opened Text
  import opened Parsing
  import opened Renderings

  // ----- Trivia -------------------------------------------------------------------------------------

  /** Text that no longer starts with trivia. */
  predicate AtToken(s: string) {
    s == "" || !(IsWhitespace(s[0]) || s[0] == ',' || StartsComment(s))
  }

  /** A bare word may end before this text. */
  predicate WordEnds(s: string) {
    s == "" || !(IsIdentChar(s[0]) || s[0] == '[')
  }

  lemma {:induction false} LineSkipped(text: string, more: string)
    requires '\n' !in text
    ensures SkipLine(text + "\n" + more) == more && SkipLine(text) == ""
  {
    if text == "" {
      assert (text + "\n" + more)[1..] == more;
    } else {
      assert (text + "\n" + more)[1..] == text[1..] + "\n" + more;
      LineSkipped(text[1..], more);
    }
  }

  lemma CommentSkipped(slashes: bool, text: string, more: string)
    requires '\n' !in text
    ensures SkipTrivia(CommentStart(slashes) + text + "\n" + more) == SkipTrivia(more)
    ensures SkipTrivia(CommentStart(slashes) + text) == ""
  {
    var start := CommentStart(slashes);
    assert '\n' !in start + text;
    LineSkipped(start + text, more);
    assert start + text + "\n" + more == (start + text) + "\n" + more;
  }

  lemma TriviumSkipped(t: Trivium, more: string)
    requires TriviumOk(t)
    ensures SkipTrivia(TriviumText(t) + more) == SkipTrivia(more)
  {
    if t.Comment? {
      CommentSkipped(t.slashes, t.text, more);
      assert TriviumText(t) + more == CommentStart(t.slashes) + t.text + "\n" + more;
    } else {
      assert (TriviumText(t) + more)[1..] == more;
    }
  }

  lemma {:induction false} TriviaSkipped(ts: seq<Trivium>, more: string)
    requires TriviaOk(ts)
    ensures SkipTrivia(TriviaText(ts) + more) == SkipTrivia(more)
  {
    hide SkipTrivia, TriviumText, TriviumOk;
    if ts == [] {
      assert TriviaText(ts) + more == more;
    } else {
      assert ts[0] in ts && forall t <- ts[1..] :: t in ts;
      TriviaSkipped(ts[1..], more);
      assert TriviaText(ts) + more == TriviumText(ts[0]) + (TriviaText(ts[1..]) + more);
      TriviumSkipped(ts[0], TriviaText(ts[1..]) + more);
    }
  }

  lemma TokenStays(s: string)
    requires AtToken(s)
    ensures SkipTrivia(s) == s
  {
  }

  /** After trivia, or at a text where a word may end, a word may end. */
  lemma WordEndsAtTrivia(ts: seq<Trivium>, more: string)
    requires TriviaOk(ts) && (ts != [] || WordEnds(more))
    ensures WordEnds(TriviaText(ts) + more)
  {
    if ts == [] {
      assert TriviaText(ts) + more == more;
    } else {
      assert TriviumOk(ts[0]);
      assert (TriviaText(ts) + more)[0] == TriviumText(ts[0])[0];
    }
  }

  // ----- Words and lists ----------------------------------------------------------------------------

  lemma IdentIsAtToken(s: string, more: string)
    requires IsIdent(s)
    ensures AtToken(s + more)
  {
    assert (s + more)[0] == s[0] && s[0] in s;
  }

  lemma WordIsAtToken(w: Word, more: string)
    requires WordOk(w)
    ensures AtToken(WordText(w) + more)
  {
    if !w.quoted {
      IdentIsAtToken(w.text, more);
    }
  }

  lemma WordParses(w: Word, more: string)
    requires WordOk(w) && (!w.quoted ==> WordEnds(more))
    ensures ParseItem(WordText(w) + more) == Ok(Read(Some(w.text), more))
  {
    hide TakeIdent, TakeQuoted;
    var s := WordText(w) + more;
    if w.quoted {
      QuotedIs(w.text, more);
      assert s[1..] == w.text + "\"" + more;
    } else {
      IdentIs(w.text, more);
      assert s[0] == w.text[0] && w.text[0] in w.text;
    }
  }

  lemma ItemStep(items: seq<Item>, more: string)
    requires items != []
    ensures ItemsText(items) + more == TriviaText(items[0].lead) + (WordText(items[0].word) + (ItemsText(items[1..]) + more))
  {
  }

  lemma ItemsLetWordEnd(items: seq<Item>, more: string)
    requires ItemsOk(items, true) && WordEnds(more)
    ensures WordEnds(ItemsText(items) + more)
  {
    hide WordEnds, TriviaText, ItemsText;
    if items == [] {
      assert ItemsText(items) + more == more by { NoItems(); }
    } else {
      var item := items[0];
      ItemStep(items, more);
      QuoteEndsWord(item.word, ItemsText(items[1..]) + more);
      WordEndsAtTrivia(item.lead, WordText(item.word) + (ItemsText(items[1..]) + more));
    }
  }

  lemma NoItems()
    ensures ItemsText([]) == ""
  {
  }

  lemma QuoteEndsWord(w: Word, more: string)
    ensures w.quoted ==> WordEnds(WordText(w) + more)
  {
  }

  lemma ParseItemsStep(s: string, token: string, word: string, more: string)
    requires SkipTrivia(s) == token && ParseItem(token) == Ok(Read(Some(word), more))
    ensures ParseItems(s) == Prepend(word, ParseItems(more))
  {
  }

  lemma ParseItemsEnd(s: string, rest: string)
    requires SkipTrivia(s) == "]" + rest
    ensures ParseItems(s) == Ok(Read([], rest))
  {
    assert ("]" + rest)[1..] == rest;
  }

  lemma {:induction false} ItemsParse(items: seq<Item>, tail: seq<Trivium>, rest: string, glued: bool)
    requires ItemsOk(items, glued) && TriviaOk(tail)
    ensures ParseItems(ItemsText(items) + (TriviaText(tail) + ("]" + rest))) == Ok(Read(Texts(items), rest))
  {
    hide ParseItems, ParseItem, SkipTrivia, TriviaText, ItemsText, WordText, WordEnds, AtToken, TriviaOk, WordOk;
    var end := TriviaText(tail) + ("]" + rest);
    TriviaSkipped(tail, "]" + rest);
    assert AtToken("]" + rest) && WordEnds("]" + rest) by { BracketIsToken(rest); }
    TokenStays("]" + rest);
    if items == [] {
      assert ItemsText(items) + end == end by { NoItems(); }
      ParseItemsEnd(end, rest);
    } else {
      var item, more := items[0], ItemsText(items[1..]) + end;
      ItemsParse(items[1..], tail, rest, !item.word.quoted);
      ItemStep(items, end);
      TriviaSkipped(item.lead, WordText(item.word) + more);
      WordIsAtToken(item.word, more);
      TokenStays(WordText(item.word) + more);
      WordEndsAtTrivia(tail, "]" + rest);
      if !item.word.quoted {
        ItemsLetWordEnd(items[1..], end);
      }
      WordParses(item.word, more);
      ParseItemsStep(ItemsText(items) + end, WordText(item.word) + more, item.word.text, more);
    }
  }

  lemma BracketIsToken(rest: string)
    ensures AtToken("]" + rest) && WordEnds("]" + rest)
  {
  }

  // ----- Values and entries -------------------------------------------------------------------------

  lemma ListParses(items: seq<Item>, tail: seq<Trivium>, rest: string)
    requires ItemsOk(items, false) && TriviaOk(tail)
    ensures ParseList("[" + (ItemsText(items) + (TriviaText(tail) + ("]" + rest)))) == Ok(Read(Texts(items), rest))
  {
    hide ParseItems, ItemsText, TriviaText;
    var inside := ItemsText(items) + (TriviaText(tail) + ("]" + rest));
    ItemsParse(items, tail, rest, false);
    assert ("[" + inside)[1..] == inside;
  }

  /** A value read where the trivia before it ends at `t`. */
  lemma WordValue(s: string, w: Word, rest: string)
    requires WordOk(w) && (!w.quoted ==> WordEnds(rest)) && SkipTrivia(s) == WordText(w) + rest
    ensures ParseValue(s) == Ok(Read(Scalar(w.text), rest))
  {
    hide SkipTrivia, TakeIdent, TakeQuoted;
    var t := WordText(w) + rest;
    if w.quoted {
      assert t[1..] == w.text + "\"" + rest;
      QuotedIs(w.text, rest);
    } else {
      IdentIs(w.text, rest);
      assert t[0] == w.text[0] && w.text[0] in w.text;
    }
  }

  lemma ListValue(s: string, items: seq<Item>, tail: seq<Trivium>, rest: string)
    requires ItemsOk(items, false) && TriviaOk(tail)
    requires SkipTrivia(s) == "[" + (ItemsText(items) + (TriviaText(tail) + ("]" + rest)))
    ensures ParseValue(s) == Ok(Read(ListOf(Texts(items)), rest))
  {
    hide SkipTrivia, ParseList, ItemsText, TriviaText;
    ListParses(items, tail, rest);
  }

  lemma EnumIsIdent()
    ensures IsIdent("enum") && "enum" == ['e', 'n', 'u', 'm']
  {
  }

  lemma EnumValue(s: string, items: seq<Item>, tail: seq<Trivium>, rest: string)
    requires ItemsOk(items, false) && TriviaOk(tail)
    requires SkipTrivia(s) == "enum" + ("[" + (ItemsText(items) + (TriviaText(tail) + ("]" + rest))))
    ensures ParseValue(s) == Ok(Read(EnumOf(Texts(items)), rest))
  {
    hide SkipTrivia, ParseList, ItemsText, TriviaText, TakeIdent;
    var list := "[" + (ItemsText(items) + (TriviaText(tail) + ("]" + rest)));
    ListParses(items, tail, rest);
    EnumIsIdent();
    IdentIs("enum", list);
    assert ("enum" + list)[0] == 'e';
  }

  lemma BlockValue(s: string, inside: string, entries: seq<Entry>, rest: string)
    requires SkipTrivia(s) == "{" + inside && ParseEntries(inside, true) == Ok(Read(entries, rest))
    ensures ParseValue(s) == Ok(Read(Block(entries), rest))
  {
    hide SkipTrivia, ParseEntries;
    assert ("{" + inside)[1..] == inside;
  }

  lemma ListText(n: Node, rest: string)
    requires n.ListNode?
    ensures NodeText(n) + rest ==
            (if n.isEnum then "enum" else "") + ("[" + (ItemsText(n.items) + (TriviaText(n.listTail) + ("]" + rest))))
  {
    assert "enum[" == "enum" + "[";
  }

  lemma BlockText(n: Node, rest: string)
    requires n.BlockNode?
    ensures NodeText(n) + rest == "{" + (EntriesText(n.entries) + (TriviaText(n.blockTail) + ("}" + rest)))
  {
  }

  lemma NodeIsAtToken(n: Node, rest: string)
    requires NodeOk(n)
    ensures AtToken(NodeText(n) + rest) && (n.BlockNode? ==> NodeText(n) != "" && NodeText(n)[0] == '{')
  {
    match n {
      case WordNode(w) => WordIsAtToken(w, rest);
      case ListNode(_, _, _) => assert NodeText(n)[0] == if n.isEnum then 'e' else '[';
      case BlockNode(_, _) => assert NodeText(n)[0] == '{';
    }
  }

  lemma {:induction false} ValueParses(gap: seq<Trivium>, n: Node, rest: string)
    requires NodeOk(n) && TriviaOk(gap) && (IsBareWord(n) ==> WordEnds(rest))
    ensures ParseValue(TriviaText(gap) + (NodeText(n) + rest)) == Ok(Read(NodeValue(n), rest))
    decreases n, 0
  {
    hide ParseValue, ParseEntries, SkipTrivia, TriviaText, NodeText, ItemsText, EntriesText, WordText, WordEnds, AtToken;
    var s := TriviaText(gap) + (NodeText(n) + rest);
    TriviaSkipped(gap, NodeText(n) + rest);
    NodeIsAtToken(n, rest);
    TokenStays(NodeText(n) + rest);
    match n {
      case WordNode(w) =>
        assert NodeText(n) == WordText(w) by { WordNodeText(w); }
        WordValue(s, w, rest);
      case ListNode(isEnum, items, tail) =>
        ListText(n, rest);
        if isEnum {
          EnumValue(s, items, tail, rest);
        } else {
          NoPrefix("[" + (ItemsText(items) + (TriviaText(tail) + ("]" + rest))));
          ListValue(s, items, tail, rest);
        }
      case BlockNode(entries, tail) =>
        BlockText(n, rest);
        assert WordEnds("}" + rest) by { BraceIsToken(rest); }
        EntriesParse(entries, tail, "}" + rest, rest, true, false);
        BlockValue(s, EntriesText(entries) + (TriviaText(tail) + ("}" + rest)), EntriesValue(entries), rest);
    }
  }

  lemma NoPrefix(s: string)
    ensures "" + s == s
  {
  }

  lemma WordNodeText(w: Word)
    ensures NodeText(WordNode(w)) == WordText(w)
  {
  }

  lemma BraceIsToken(rest: string)
    ensures AtToken("}" + rest) && WordEnds("}" + rest) && ("}" + rest)[1..] == rest
  {
  }

  lemma EntryStep(es: seq<EntryNode>, more: string)
    requires es != []
    ensures EntriesText(es) + more ==
            TriviaText(es[0].lead) + (es[0].key + (TriviaText(es[0].mid) + (SeparatorText(es[0].separator) +
            (TriviaText(es[0].gap) + (NodeText(es[0].node) + (EntriesText(es[1..]) + more))))))
  {
    hide TriviaText, NodeText;
  }

  lemma EntriesLetWordEnd(es: seq<EntryNode>, more: string)
    requires EntriesOk(es, true) && WordEnds(more)
    ensures WordEnds(EntriesText(es) + more)
  {
    hide WordEnds, TriviaText, EntriesText, SeparatorText;
    if es == [] {
      assert EntriesText(es) + more == more by { NoEntries(); }
    } else {
      var e := es[0];
      EntryStep(es, more);
      WordEndsAtTrivia(e.lead, e.key + (TriviaText(e.mid) + (SeparatorText(e.separator) +
                                (TriviaText(e.gap) + (NodeText(e.node) + (EntriesText(es[1..]) + more))))));
    }
  }

  lemma NoEntries()
    ensures EntriesText([]) == ""
  {
  }

  /** What comes after a key starts with trivia, a separator or a brace. */
  lemma KeyEnds(e: EntryNode, more: string)
    requires TriviaOk(e.mid) && NodeOk(e.node) && (e.separator.Bare? ==> e.node.BlockNode? && e.gap == [])
    ensures WordEnds(TriviaText(e.mid) + (SeparatorText(e.separator) + (TriviaText(e.gap) + (NodeText(e.node) + more))))
  {
    NodeIsAtToken(e.node, more);
    var after := SeparatorText(e.separator) + (TriviaText(e.gap) + (NodeText(e.node) + more));
    assert WordEnds(after) by {
      if e.separator.Bare? {
        assert after == NodeText(e.node) + more;
      }
    }
    WordEndsAtTrivia(e.mid, after);
  }

  lemma AfterKeyParses(e: EntryNode, more: string)
    requires TriviaOk(e.mid) && NodeOk(e.node) && (e.separator.Bare? ==> e.node.BlockNode? && e.gap == [])
    requires ParseValue(TriviaText(e.gap) + (NodeText(e.node) + more)) == Ok(Read(NodeValue(e.node), more))
    ensures ParseAfterKey(e.key, TriviaText(e.mid) + (SeparatorText(e.separator) + (TriviaText(e.gap) + (NodeText(e.node) + more))))
            == Ok(Read(NodeValue(e.node), more))
  {
    hide ParseValue, SkipTrivia, NodeText;
    var value := TriviaText(e.gap) + (NodeText(e.node) + more);
    var after := SeparatorText(e.separator) + value;
    TriviaSkipped(e.mid, after);
    NodeIsAtToken(e.node, more);
    assert AtToken(after) by {
      if e.separator.Bare? {
        assert after == NodeText(e.node) + more;
      }
    }
    TokenStays(after);
    if e.separator.Bare? {
      assert after == value == NodeText(e.node) + more;
    } else {
      assert after[1..] == value;
    }
  }

  lemma ParseEntriesStep(s: string, key: string, after: string, value: Value, more: string, nested: bool)
    requires IsIdent(key) && WordEnds(after) && SkipTrivia(s) == key + after
    requires ParseAfterKey(key, after) == Ok(Read(value, more))
    ensures ParseEntries(s, nested) == Prepend(Entry(key, value), ParseEntries(more, nested))
  {
    hide SkipTrivia, TakeIdent, ParseAfterKey;
    IdentIs(key, after);
    assert (key + after)[0] == key[0] && key[0] in key;
  }

  lemma ParseEntriesEnd(s: string, rest: string, nested: bool)
    requires if nested then SkipTrivia(s) == "}" + rest else SkipTrivia(s) == "" == rest
    ensures ParseEntries(s, nested) == Ok(Read([], rest))
  {
    BraceIsToken(rest);
  }

  /** `end` closes the entries: a brace and what follows it, or the end of the text. */
  lemma {:induction false} EntriesParse(es: seq<EntryNode>, tail: seq<Trivium>, end: string, rest: string, nested: bool, glued: bool)
    requires EntriesOk(es, glued) && TriviaOk(tail) && WordEnds(end)
    requires if nested then end == "}" + rest else SkipTrivia(end) == "" == rest
    ensures ParseEntries(EntriesText(es) + (TriviaText(tail) + end), nested) == Ok(Read(EntriesValue(es), rest))
    decreases es, 1
  {
    hide ParseEntries, ParseAfterKey, ParseValue, SkipTrivia, TriviaText, NodeText, EntriesText, SeparatorText, WordEnds, AtToken;
    hide TriviaOk, IsIdent;
    var close := TriviaText(tail) + end;
    if es == [] {
      assert EntriesText(es) + close == close by { NoEntries(); }
      TriviaSkipped(tail, end);
      BraceIsToken(rest);
      if nested {
        TokenStays(end);
      }
      ParseEntriesEnd(close, rest, nested);
    } else {
      var e, more := es[0], EntriesText(es[1..]) + close;
      EntriesParse(es[1..], tail, end, rest, nested, IsBareWord(e.node));
      WordEndsAtTrivia(tail, end);
      if IsBareWord(e.node) {
        EntriesLetWordEnd(es[1..], close);
      }
      ValueParses(e.gap, e.node, more);
      KeyEnds(e, more);
      AfterKeyParses(e, more);
      EntryStep(es, close);
      var after := TriviaText(e.mid) + (SeparatorText(e.separator) + (TriviaText(e.gap) + (NodeText(e.node) + more)));
      TriviaSkipped(e.lead, e.key + after);
      IdentIsAtToken(e.key, after);
      TokenStays(e.key + after);
      ParseEntriesStep(EntriesText(es) + close, e.key, after, NodeValue(e.node), more, nested);
    }
  }

  /** Parsing any proper rendering of an entry tree gives back the tree and reads the text to its end. */
  lemma RenderingsParse(f: File)
    requires FileOk(f)
    ensures ParseEntries(FileText(f), false) == Ok(Read(EntriesValue(f.entries), ""))
  {
    hide EntriesText, TriviaText, ParseEntries;
    var end := UnendedText(f.unended);
    assert SkipTrivia(end) == "" && WordEnds(end) by { UnendedIsSkipped(f); }
    EntriesParse(f.entries, f.tail, end, "", false, false);
    assert FileText(f) == EntriesText(f.entries) + (TriviaText(f.tail) + end);
  }

  lemma UnendedIsSkipped(f: File)
    requires FileOk(f)
    ensures SkipTrivia(UnendedText(f.unended)) == "" && WordEnds(UnendedText(f.unended))
  {
    if f.unended.Some? {
      CommentSkipped(f.unended.value.slashes, f.unended.value.text, "");
    }
  }
}
