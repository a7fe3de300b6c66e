/** The texts an entry tree can be written as, defined without reference to the parser: every token with the
    white space, commas and comments around it. */
module Renderings {
  import opened Prelude
  import opened Text
  import opened Parsing

  datatype Trivium = Blank(c: char) | Comma | Comment(slashes: bool, text: string)

  datatype Word = Word(text: string, quoted: bool)

  datatype Item = Item(lead: seq<Trivium>, word: Word)

  datatype Node =
    | WordNode(word: Word)
    | ListNode(isEnum: bool, items: seq<Item>, listTail: seq<Trivium>)
    | BlockNode(entries: seq<EntryNode>, blockTail: seq<Trivium>)

  datatype Separator = Colon | Equals | Bare

  datatype EntryNode = EntryNode(lead: seq<Trivium>, key: string, mid: seq<Trivium>, separator: Separator, gap: seq<Trivium>,
                                 node: Node)

  /** The last comment of a file may lack its line end. */
  datatype File = File(entries: seq<EntryNode>, tail: seq<Trivium>, unended: Option<Trivium>)

  // ----- Text ---------------------------------------------------------------------------------------

  function CommentStart(slashes: bool): string {
    if slashes then "//" else "#"
  }

  function TriviumText(t: Trivium): string {
    match t
    case Blank(c) => [c]
    case Comma => ","
    case Comment(slashes, text) => CommentStart(slashes) + text + "\n"
  }

  function TriviaText(ts: seq<Trivium>): string {
    if ts == [] then "" else TriviumText(ts[0]) + TriviaText(ts[1..])
  }

  function WordText(w: Word): string {
    if w.quoted then "\"" + w.text + "\"" else w.text
  }

  function ItemsText(items: seq<Item>): string {
    if items == [] then ""
    else TriviaText(items[0].lead) + WordText(items[0].word) + ItemsText(items[1..])
  }

  function NodeText(n: Node): string
    decreases n
  {
    match n
    case WordNode(w) => WordText(w)
    case ListNode(isEnum, items, tail) => (if isEnum then "enum[" else "[") + ItemsText(items) + TriviaText(tail) + "]"
    case BlockNode(entries, tail) => "{" + EntriesText(entries) + TriviaText(tail) + "}"
  }

  function SeparatorText(s: Separator): string {
    match s
    case Colon => ":"
    case Equals => "="
    case Bare => ""
  }

  function EntriesText(es: seq<EntryNode>): string
    decreases es
  {
    if es == [] then ""
    else
      TriviaText(es[0].lead) + es[0].key + TriviaText(es[0].mid) + SeparatorText(es[0].separator) +
      TriviaText(es[0].gap) + NodeText(es[0].node) + EntriesText(es[1..])
  }

  function UnendedText(unended: Option<Trivium>): string {
    if unended.Some? && unended.value.Comment? then CommentStart(unended.value.slashes) + unended.value.text else ""
  }

  function FileText(f: File): string {
    EntriesText(f.entries) + TriviaText(f.tail) + UnendedText(f.unended)
  }

  // ----- Which renderings are proper ----------------------------------------------------------------

  predicate TriviumOk(t: Trivium) {
    match t
    case Blank(c) => IsWhitespace(c)
    case Comma => true
    case Comment(_, text) => '\n' !in text
  }

  predicate TriviaOk(ts: seq<Trivium>) {
    forall t <- ts :: TriviumOk(t)
  }

  predicate IsIdent(s: string) {
    s != "" && forall c <- s :: IsIdentChar(c)
  }

  predicate WordOk(w: Word) {
    if w.quoted then '"' !in w.text else IsIdent(w.text)
  }

  /** `glued`: an identifier comes directly before, so another one must be kept apart from it. */
  predicate ItemsOk(items: seq<Item>, glued: bool) {
    items == [] ||
    (TriviaOk(items[0].lead) && WordOk(items[0].word)
     && (glued && !items[0].word.quoted ==> items[0].lead != [])
     && ItemsOk(items[1..], !items[0].word.quoted))
  }

  predicate NodeOk(n: Node)
    decreases n
  {
    match n
    case WordNode(w) => WordOk(w)
    case ListNode(_, items, tail) => ItemsOk(items, false) && TriviaOk(tail)
    case BlockNode(entries, tail) => EntriesOk(entries, false) && TriviaOk(tail)
  }

  predicate IsBareWord(n: Node) {
    n.WordNode? && !n.word.quoted
  }

  predicate EntriesOk(es: seq<EntryNode>, glued: bool)
    decreases es
  {
    es == [] ||
    (TriviaOk(es[0].lead) && IsIdent(es[0].key) && TriviaOk(es[0].mid) && TriviaOk(es[0].gap) && NodeOk(es[0].node)
     && (glued ==> es[0].lead != [])
     && (es[0].separator.Bare? ==> es[0].node.BlockNode? && es[0].gap == [])
     && EntriesOk(es[1..], IsBareWord(es[0].node)))
  }

  predicate FileOk(f: File) {
    && EntriesOk(f.entries, false) && TriviaOk(f.tail)
    && (f.unended.Some? ==> f.unended.value.Comment? && TriviumOk(f.unended.value))
  }

  // ----- The tree a rendering stands for ------------------------------------------------------------

  function Texts(items: seq<Item>): seq<string> {
    if items == [] then [] else [items[0].word.text] + Texts(items[1..])
  }

  function NodeValue(n: Node): Value
    decreases n
  {
    match n
    case WordNode(w) => Scalar(w.text)
    case ListNode(isEnum, items, _) => if isEnum then EnumOf(Texts(items)) else ListOf(Texts(items))
    case BlockNode(entries, _) => Block(EntriesValue(entries))
  }

  function EntriesValue(es: seq<EntryNode>): seq<Entry>
    decreases es
  {
    if es == [] then [] else [Entry(es[0].key, NodeValue(es[0].node))] + EntriesValue(es[1..])
  }

  // ----- Every tree has a rendering -----------------------------------------------------------------

  predicate QuoteFree(s: string) {
    '"' !in s
  }

  /** Keys are identifiers, and no text holds a quote. */
  predicate ValueOk(v: Value)
    decreases v
  {
    match v
    case Scalar(text) => QuoteFree(text)
    case ListOf(items) => forall text <- items :: QuoteFree(text)
    case EnumOf(items) => forall text <- items :: QuoteFree(text)
    case Block(entries) => TreeOk(entries)
  }

  predicate TreeOk(entries: seq<Entry>)
    decreases entries
  {
    entries == [] || (IsIdent(entries[0].key) && ValueOk(entries[0].value) && TreeOk(entries[1..]))
  }

  function QuotedItems(texts: seq<string>): seq<Item> {
    if texts == [] then [] else [Item([], Word(texts[0], true))] + QuotedItems(texts[1..])
  }

  function PlainNode(v: Value): Node
    decreases v
  {
    match v
    case Scalar(text) => WordNode(Word(text, true))
    case ListOf(items) => ListNode(false, QuotedItems(items), [])
    case EnumOf(items) => ListNode(true, QuotedItems(items), [])
    case Block(entries) => BlockNode(PlainEntries(entries), [])
  }

  function PlainEntries(entries: seq<Entry>): seq<EntryNode>
    decreases entries
  {
    if entries == [] then []
    else [EntryNode([], entries[0].key, [], Colon, [], PlainNode(entries[0].value))] + PlainEntries(entries[1..])
  }

  lemma {:induction false} QuotedItemsFit(texts: seq<string>)
    requires forall text <- texts :: QuoteFree(text)
    ensures ItemsOk(QuotedItems(texts), false) && Texts(QuotedItems(texts)) == texts
  {
    if texts != [] {
      QuotedItemsFit(texts[1..]);
      assert QuoteFree(texts[0]) && texts == [texts[0]] + texts[1..];
      assert QuotedItems(texts)[1..] == QuotedItems(texts[1..]);
    }
  }

  lemma {:induction false} PlainNodeFits(v: Value)
    requires ValueOk(v)
    ensures NodeOk(PlainNode(v)) && NodeValue(PlainNode(v)) == v && !IsBareWord(PlainNode(v))
    decreases v
  {
    match v {
      case Scalar(_) =>
      case ListOf(items) => QuotedItemsFit(items);
      case EnumOf(items) => QuotedItemsFit(items);
      case Block(entries) => PlainEntriesFit(entries);
    }
  }

  lemma {:induction false} PlainEntriesFit(entries: seq<Entry>)
    requires TreeOk(entries)
    ensures EntriesOk(PlainEntries(entries), false) && EntriesValue(PlainEntries(entries)) == entries
    decreases entries
  {
    if entries != [] {
      PlainNodeFits(entries[0].value);
      PlainEntriesFit(entries[1..]);
      assert PlainEntries(entries)[1..] == PlainEntries(entries[1..]);
    }
  }

  lemma EveryTreeHasARendering(entries: seq<Entry>)
    requires TreeOk(entries)
    ensures exists f :: FileOk(f) && EntriesValue(f.entries) == entries
  {
    PlainEntriesFit(entries);
    assert FileOk(File(PlainEntries(entries), [], None));
  }
}
