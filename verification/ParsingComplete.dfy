/** Conversely, whatever the parser accepts is a proper rendering of the tree it returns. */
module ParsingComplete {
  import opened Prelude
  import opened Text
  import opened Parsing
  import opened Renderings
  import opened ParsingExact

  predicate NoIdentAt(s: string) {
    s == "" || !IsIdentChar(s[0])
  }

  // ----- Trivia -------------------------------------------------------------------------------------

  lemma {:induction false} LineShape(s: string) returns (text: string, ended: bool)
    ensures '\n' !in text
    ensures if ended then s == text + "\n" + SkipLine(s) else s == text && SkipLine(s) == ""
  {
    if s == "" {
      text, ended := "", false;
    } else if s[0] == '\n' {
      text, ended := "", true;
    } else {
      text, ended := LineShape(s[1..]);
      text := [s[0]] + text;
    }
  }

  lemma CommentShape(s: string) returns (slashes: bool, text: string, ended: bool)
    requires StartsComment(s)
    ensures '\n' !in text
    ensures if ended then s == CommentStart(slashes) + text + "\n" + SkipLine(s)
            else s == CommentStart(slashes) + text && SkipLine(s) == ""
  {
    var line;
    line, ended := LineShape(s);
    slashes := s[0] == '/';
    var n := |CommentStart(slashes)|;
    assert CommentStart(slashes) <= s && '\n' !in CommentStart(slashes);
    if ended {
      assert s[|line|] == '\n';
      assert n <= |line|;
    }
    text := line[n..];
    assert line == CommentStart(slashes) + text by {
      assert forall i :: 0 <= i < n ==> line[i] == s[i];
    }
  }

  lemma {:induction false} TriviaShape(s: string) returns (ts: seq<Trivium>, unended: Option<Trivium>)
    ensures TriviaOk(ts) && s == TriviaText(ts) + UnendedText(unended) + SkipTrivia(s)
    ensures unended.Some? ==> unended.value.Comment? && TriviumOk(unended.value) && SkipTrivia(s) == ""
    decreases |s|
  {
    hide SkipTrivia, SkipLine, TriviaText, TriviumText, UnendedText, StartsComment, IsWhitespace, TriviaOk, TriviumOk;
    NoTrivia();
    SkipCases(s);
    if s != "" && (IsWhitespace(s[0]) || s[0] == ',') {
      BlankFits(s[0]);
      ts, unended := TriviaShape(s[1..]);
      ts := PushTrivium(if s[0] == ',' then Comma else Blank(s[0]), ts);
      assert s == [s[0]] + s[1..];
    } else if StartsComment(s) {
      var slashes, text, ended := CommentShape(s);
      CommentFits(slashes, text);
      ts, unended := TriviaShape(SkipLine(s));
      if ended {
        ts := PushTrivium(Comment(slashes, text), ts);
      } else {
        ts, unended := [], Some(Comment(slashes, text));
      }
    } else {
      ts, unended := [], None;
    }
  }

  lemma SkipCases(s: string)
    ensures SkipTrivia(s) == if s != "" && (IsWhitespace(s[0]) || s[0] == ',') then SkipTrivia(s[1..])
                             else if StartsComment(s) then SkipTrivia(SkipLine(s)) else s
    ensures StartsComment(s) ==> |SkipLine(s)| < |s|
    ensures SkipTrivia("") == ""
  {
  }

  lemma BlankFits(c: char)
    requires IsWhitespace(c) || c == ','
    ensures var t := if c == ',' then Comma else Blank(c); TriviumOk(t) && TriviumText(t) == [c]
  {
  }

  lemma CommentFits(slashes: bool, text: string)
    requires '\n' !in text
    ensures TriviumOk(Comment(slashes, text)) && TriviumText(Comment(slashes, text)) == CommentStart(slashes) + text + "\n"
    ensures UnendedText(Some(Comment(slashes, text))) == CommentStart(slashes) + text
  {
  }

  lemma PushTrivium(t: Trivium, ts: seq<Trivium>) returns (more: seq<Trivium>)
    requires TriviumOk(t) && TriviaOk(ts)
    ensures TriviaOk(more) && more != [] && TriviaText(more) == TriviumText(t) + TriviaText(ts)
  {
    more := [t] + ts;
    assert more[1..] == ts;
  }

  /** Trivia before something that is there. */
  lemma LeadShape(s: string) returns (ts: seq<Trivium>)
    requires SkipTrivia(s) != ""
    ensures TriviaOk(ts) && s == TriviaText(ts) + SkipTrivia(s) && (ts == [] ==> s == SkipTrivia(s))
  {
    hide SkipTrivia, TriviaText;
    var unended;
    ts, unended := TriviaShape(s);
    assert ts == [] ==> TriviaText(ts) == "" by { NoTrivia(); }
  }

  lemma NoTrivia()
    ensures TriviaText([]) == "" && TriviaOk([]) && UnendedText(None) == ""
  {
  }

  // ----- Lists --------------------------------------------------------------------------------------

  lemma WordShape(t: string) returns (w: Word)
    requires t != "" && t[0] != ']' && ParseItem(t).Ok?
    ensures var read := ParseItem(t).value;
            WordOk(w) && read.value == Some(w.text) && t == WordText(w) + read.rest && (!w.quoted ==> NoIdentAt(read.rest))
            && (!w.quoted ==> IsIdentChar(t[0]))
  {
    var read := ParseItem(t).value;
    w := Word(read.value.value, t[0] == '"');
    if !w.quoted {
      assert TakeIdent(t).value != "";
    }
  }

  lemma {:induction false} ItemsShape(s: string, glued: bool) returns (items: seq<Item>, tail: seq<Trivium>)
    requires ParseItems(s).Ok? && (glued ==> NoIdentAt(s))
    ensures ItemsOk(items, glued) && TriviaOk(tail) && Texts(items) == ParseItems(s).value.value
    ensures s == ItemsText(items) + (TriviaText(tail) + ("]" + ParseItems(s).value.rest))
    decreases |s|
  {
    hide SkipTrivia, ParseItem, TriviaText, WordText, WordOk, TriviaOk, IsIdentChar;
    var t := SkipTrivia(s);
    assert t != "" by { EmptyIsNoItem(); }
    var lead := LeadShape(s);
    if t[0] == ']' {
      items, tail := [], lead;
      BracketEnds(t);
      assert s == ItemsText(items) + s;
    } else {
      BracketEnds(t);
      var word := WordShape(t);
      var rest := ParseItem(t).value.rest;
      items, tail := ItemsShape(rest, !word.quoted);
      items := PushItem(Item(lead, word), items, glued);
    }
  }

  lemma EmptyIsNoItem()
    ensures ParseItem("").Err?
  {
  }

  lemma BracketEnds(t: string)
    requires t != "" && ParseItem(t).Ok?
    ensures t[0] == ']' <==> ParseItem(t).value.value.None?
    ensures t[0] == ']' ==> t == "]" + ParseItem(t).value.rest
  {
  }

  lemma PushItem(item: Item, items: seq<Item>, glued: bool) returns (more: seq<Item>)
    requires TriviaOk(item.lead) && WordOk(item.word) && ItemsOk(items, !item.word.quoted)
    requires glued && !item.word.quoted ==> item.lead != []
    ensures ItemsOk(more, glued) && Texts(more) == [item.word.text] + Texts(items)
    ensures ItemsText(more) == TriviaText(item.lead) + WordText(item.word) + ItemsText(items)
  {
    more := [item] + items;
    assert more[1..] == items;
  }

  lemma ListShape(s: string) returns (items: seq<Item>, tail: seq<Trivium>)
    requires ParseList(s).Ok?
    ensures ItemsOk(items, false) && TriviaOk(tail) && Texts(items) == ParseList(s).value.value
    ensures s == "[" + (ItemsText(items) + (TriviaText(tail) + ("]" + ParseList(s).value.rest)))
  {
    hide ParseItems, ItemsText, TriviaText;
    items, tail := ItemsShape(s[1..], false);
    assert s == "[" + s[1..];
  }

  // ----- Values and entries -------------------------------------------------------------------------

  lemma ValueCases(s: string)
    requires ParseValue(s).Ok?
    ensures var (t, read) := (SkipTrivia(s), ParseValue(s).value);
            && t != ""
            && (t[0] == '{' ==> ParseEntries(t[1..], true).Ok? &&
                                read == Read(Block(ParseEntries(t[1..], true).value.value), ParseEntries(t[1..], true).value.rest))
            && (t[0] == '[' ==> ParseList(t).Ok? && read == Read(ListOf(ParseList(t).value.value), ParseList(t).value.rest))
            && (t[0] !in "{[" ==> if IsEnum(t) then
                                    var list := ParseList(TakeIdent(t).rest);
                                    list.Ok? && read == Read(EnumOf(list.value.value), list.value.rest)
                                  else
                                    t[0] != ']' && ParseItem(t).Ok? && ParseItem(t).value.value.Some?
                                    && read == Read(Scalar(ParseItem(t).value.value.value), ParseItem(t).value.rest))
  {
    hide SkipTrivia, ParseEntries, ParseList, TakeIdent, TakeQuoted;
  }

  predicate IsEnum(t: string) {
    var ident := TakeIdent(t);
    ident.value == "enum" && ident.rest != "" && ident.rest[0] == '['
  }

  lemma WordNodeShape(w: Word)
    requires WordOk(w)
    ensures NodeOk(WordNode(w)) && NodeValue(WordNode(w)) == Scalar(w.text) && NodeText(WordNode(w)) == WordText(w)
  {
  }

  lemma ListNodeShape(isEnum: bool, items: seq<Item>, tail: seq<Trivium>)
    requires ItemsOk(items, false) && TriviaOk(tail)
    ensures var n := ListNode(isEnum, items, tail);
            NodeOk(n) && NodeValue(n) == if isEnum then EnumOf(Texts(items)) else ListOf(Texts(items))
  {
  }

  lemma BlockNodeShape(es: seq<EntryNode>, tail: seq<Trivium>)
    requires EntriesOk(es, false) && TriviaOk(tail)
    ensures NodeOk(BlockNode(es, tail)) && NodeValue(BlockNode(es, tail)) == Block(EntriesValue(es))
  {
  }

  lemma {:induction false} ValueShape(s: string) returns (gap: seq<Trivium>, n: Node)
    requires ParseValue(s).Ok?
    ensures NodeOk(n) && TriviaOk(gap) && NodeValue(n) == ParseValue(s).value.value
    ensures s == TriviaText(gap) + (NodeText(n) + ParseValue(s).value.rest)
    ensures IsBareWord(n) ==> NoIdentAt(ParseValue(s).value.rest)
    ensures SkipTrivia(s) == s && s[0] == '{' ==> gap == [] && n.BlockNode?
    decreases |s|, 0
  {
    hide SkipTrivia, ParseValue, ParseEntries, ParseList, ParseItem, IsEnum, TriviaText, TriviaOk, ItemsText, EntriesText;
    hide EntriesOk, ItemsOk, NodeText, NodeOk, NodeValue, TakeIdent, WordOk, WordText, NoIdentAt;
    var t := SkipTrivia(s);
    ValueCases(s);
    gap := LeadShape(s);
    var rest := ParseValue(s).value.rest;
    assert t == [t[0]] + t[1..];
    if t[0] == '{' {
      var es, tail, unended := EntriesShape(t[1..], true, false);
      n := BlockNode(es, tail);
      BlockNodeShape(es, tail);
      BlockText(n, rest);
      if s == t {
        gap := [];
        NoTrivia();
        NoPrefix(s);
      }
    } else if t[0] == '[' {
      var items, tail := ListShape(t);
      n := ListNode(false, items, tail);
      ListNodeShape(false, items, tail);
      ListText(n, rest);
      NoPrefix(t);
    } else if IsEnum(t) {
      var ident := TakeIdent(t);
      assert ident.value == "enum" by { EnumStarts(t); }
      var items, tail := ListShape(ident.rest);
      n := ListNode(true, items, tail);
      ListNodeShape(true, items, tail);
      ListText(n, rest);
    } else {
      var w := WordShape(t);
      n := WordNode(w);
      WordNodeShape(w);
    }
  }

  lemma EnumStarts(t: string)
    requires IsEnum(t)
    ensures TakeIdent(t).value == "enum"
  {
  }

  lemma {:induction false} AfterKeyShape(key: string, s: string)
    returns (mid: seq<Trivium>, separator: Separator, gap: seq<Trivium>, n: Node)
    requires ParseAfterKey(key, s).Ok?
    ensures TriviaOk(mid) && TriviaOk(gap) && NodeOk(n) && NodeValue(n) == ParseAfterKey(key, s).value.value
    ensures separator.Bare? ==> n.BlockNode? && gap == []
    ensures IsBareWord(n) ==> NoIdentAt(ParseAfterKey(key, s).value.rest)
    ensures s == TriviaText(mid) + (SeparatorText(separator) + (TriviaText(gap) + (NodeText(n) + ParseAfterKey(key, s).value.rest)))
    decreases |s|, 1
  {
    hide SkipTrivia, ParseValue, TriviaText, NodeText, NodeOk, NodeValue, TriviaOk, IsIdentChar;
    var t := SkipTrivia(s);
    mid := LeadShape(s);
    if t[0] == '{' {
      SkipTwice(s);
      gap, n := ValueShape(t);
      separator := Bare;
      NoPrefix(t);
    } else {
      gap, n := ValueShape(t[1..]);
      separator := if t[0] == ':' then Colon else Equals;
      assert t == SeparatorText(separator) + t[1..];
    }
  }

  lemma {:induction false} SkipTwice(s: string)
    ensures AtToken(SkipTrivia(s)) && SkipTrivia(SkipTrivia(s)) == SkipTrivia(s)
    decreases |s|
  {
    if s != "" && (IsWhitespace(s[0]) || s[0] == ',') {
      SkipTwice(s[1..]);
    } else if StartsComment(s) {
      SkipTwice(SkipLine(s));
    }
  }

  lemma EntriesCases(s: string, nested: bool)
    requires ParseEntries(s, nested).Ok?
    ensures var (t, read) := (SkipTrivia(s), ParseEntries(s, nested).value);
            && (t == "" ==> !nested && read == Read([], ""))
            && (t != "" && t[0] == '}' ==> nested && read == Read([], t[1..]))
            && (t != "" && t[0] != '}' ==>
                  && ParseIdent(t).Ok?
                  && var key := ParseIdent(t).value;
                     && IsIdent(key.value) && t == key.value + key.rest && IsIdentChar(t[0])
                     && ParseAfterKey(key.value, key.rest).Ok?
                     && var value := ParseAfterKey(key.value, key.rest).value;
                        && ParseEntries(value.rest, nested).Ok? && |value.rest| < |s|
                        && var more := ParseEntries(value.rest, nested).value;
                           read == Read([Entry(key.value, value.value)] + more.value, more.rest))
  {
    hide SkipTrivia, ParseAfterKey, TakeIdent;
  }

  lemma {:induction false} EntriesShape(s: string, nested: bool, glued: bool)
    returns (es: seq<EntryNode>, tail: seq<Trivium>, unended: Option<Trivium>)
    requires ParseEntries(s, nested).Ok? && (glued ==> NoIdentAt(s))
    ensures EntriesOk(es, glued) && TriviaOk(tail) && EntriesValue(es) == ParseEntries(s, nested).value.value
    ensures unended.Some? ==> unended.value.Comment? && TriviumOk(unended.value)
    ensures nested ==> s == EntriesText(es) + (TriviaText(tail) + ("}" + ParseEntries(s, nested).value.rest))
    ensures !nested ==> s == EntriesText(es) + (TriviaText(tail) + UnendedText(unended)) && ParseEntries(s, nested).value.rest == ""
    decreases |s|, 2
  {
    hide SkipTrivia, ParseAfterKey, TriviaText, NodeText, NodeOk, NodeValue, TriviaOk, IsIdentChar, UnendedText, TakeIdent;
    hide EntriesText, EntriesValue, SeparatorText, EntriesOk, TriviumOk, ParseEntries, IsIdent, ParseIdent;
    EntriesCases(s, nested);
    var t := SkipTrivia(s);
    if t == "" {
      es := NoEntry(glued);
      tail, unended := TriviaShape(s);
    } else if t[0] == '}' {
      es := NoEntry(glued);
      tail := LeadShape(s);
      unended := None;
      assert t == "}" + t[1..];
    } else {
      var lead := LeadShape(s);
      var key := ParseIdent(t).value;
      var mid, separator, gap, n := AfterKeyShape(key.value, key.rest);
      var rest := ParseAfterKey(key.value, key.rest).value.rest;
      es, tail, unended := EntriesShape(rest, nested, IsBareWord(n));
      var e := EntryNode(lead, key.value, mid, separator, gap, n);
      es := PushEntry(e, es, glued, TriviaText(tail) + if nested then "}" + ParseEntries(s, nested).value.rest else UnendedText(unended));
    }
  }

  lemma NoEntry(glued: bool) returns (es: seq<EntryNode>)
    ensures EntriesOk(es, glued) && EntriesText(es) == "" && EntriesValue(es) == []
  {
    es := [];
  }

  lemma PushEntry(e: EntryNode, es: seq<EntryNode>, glued: bool, after: string) returns (more: seq<EntryNode>)
    requires TriviaOk(e.lead) && IsIdent(e.key) && TriviaOk(e.mid) && TriviaOk(e.gap) && NodeOk(e.node)
    requires (glued ==> e.lead != []) && (e.separator.Bare? ==> e.node.BlockNode? && e.gap == [])
    requires EntriesOk(es, IsBareWord(e.node))
    ensures EntriesOk(more, glued) && EntriesValue(more) == [Entry(e.key, NodeValue(e.node))] + EntriesValue(es)
    ensures EntriesText(more) + after ==
            TriviaText(e.lead) + (e.key + (TriviaText(e.mid) + (SeparatorText(e.separator) +
            (TriviaText(e.gap) + (NodeText(e.node) + (EntriesText(es) + after))))))
  {
    more := [e] + es;
    assert more[0] == e && more[1..] == es;
    EntryStep(more, after);
  }

  /** The parser accepts a text, with a given tree, exactly when the text is a proper rendering of that tree. */
  lemma AcceptedExactly(s: string, tree: seq<Entry>)
    ensures ParseEntries(s, false) == Ok(Read(tree, "")) <==>
            exists f :: FileOk(f) && FileText(f) == s && EntriesValue(f.entries) == tree
  {
    hide ParseEntries, EntriesText, TriviaText, EntriesValue, EntriesOk, UnendedText;
    if ParseEntries(s, false) == Ok(Read(tree, "")) {
      var es, tail, unended := EntriesShape(s, false, false);
      var f := File(es, tail, unended);
      assert FileOk(f) && FileText(f) == s;
    }
    if f :| FileOk(f) && FileText(f) == s && EntriesValue(f.entries) == tree {
      RenderingsParse(f);
    }
  }

  // ----- Which trees can be written -----------------------------------------------------------------

  lemma {:induction false} ItemsAreQuoteFree(items: seq<Item>, glued: bool)
    requires ItemsOk(items, glued)
    ensures forall text <- Texts(items) :: QuoteFree(text)
  {
    if items != [] {
      ItemsAreQuoteFree(items[1..], !items[0].word.quoted);
      WordIsQuoteFree(items[0].word);
    }
  }

  lemma WordIsQuoteFree(w: Word)
    requires WordOk(w)
    ensures QuoteFree(w.text)
  {
    assert forall c <- w.text :: !w.quoted ==> IsIdentChar(c);
  }

  lemma {:induction false} NodeIsTree(n: Node)
    requires NodeOk(n)
    ensures ValueOk(NodeValue(n))
    decreases n
  {
    match n {
      case WordNode(w) => WordIsQuoteFree(w);
      case ListNode(_, items, _) => ItemsAreQuoteFree(items, false);
      case BlockNode(entries, _) => EntriesAreTree(entries, false);
    }
  }

  lemma {:induction false} EntriesAreTree(es: seq<EntryNode>, glued: bool)
    requires EntriesOk(es, glued)
    ensures TreeOk(EntriesValue(es))
    decreases es
  {
    if es != [] {
      NodeIsTree(es[0].node);
      EntriesAreTree(es[1..], IsBareWord(es[0].node));
      assert EntriesValue(es)[1..] == EntriesValue(es[1..]);
    }
  }

  /** The trees the parser can return are exactly those with identifier keys and quote-free texts. */
  lemma WritableExactly(tree: seq<Entry>)
    ensures TreeOk(tree) <==> exists s :: ParseEntries(s, false) == Ok(Read(tree, ""))
  {
    hide ParseEntries, EntriesValue, EntriesOk, TreeOk, FileText;
    if TreeOk(tree) {
      EveryTreeHasARendering(tree);
      var f :| FileOk(f) && EntriesValue(f.entries) == tree;
      RenderingsParse(f);
      assert ParseEntries(FileText(f), false) == Ok(Read(tree, ""));
    }
    if s :| ParseEntries(s, false) == Ok(Read(tree, "")) {
      AcceptedExactly(s, tree);
      var f :| FileOk(f) && FileText(f) == s && EntriesValue(f.entries) == tree;
      EntriesAreTree(f.entries, false);
    }
  }
}
