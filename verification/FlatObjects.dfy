/** How any text given to the flat reader is made up, and what the reader takes from it. */
module FlatObjects {
  import opened Prelude
  import opened Text
  import opened QueryString
  import opened JsonBody

  // ----- Texts --------------------------------------------------------------------------------------

  datatype Piece = Plain(c: char) | Escaped(c: char)

  /** What stands behind an opening quote; the closing one is missing only where the whole text ends. */
  datatype Quoted = Quoted(pieces: seq<Piece>, closed: bool)

  datatype FieldValue =
    | Lone
    | Missing(blanks: string)
    | InQuotes(blanks: string, quoted: Quoted)
    | Nested(blanks: string, text: string)
    | Bare(blanks: string, core: string, trailing: string)

  datatype Item = Other(c: char) | Member(key: Quoted, blanks: string, value: FieldValue)

  function PieceText(p: Piece): string {
    match p case Plain(c) => [c] case Escaped(c) => ['\\', c]
  }

  function PiecesText(ps: seq<Piece>): string {
    if ps == [] then "" else PieceText(ps[0]) + PiecesText(ps[1..])
  }

  /** Behind the opening quote. */
  function QuotedText(q: Quoted): string {
    PiecesText(q.pieces) + if q.closed then "\"" else ""
  }

  /** Behind the colon and the blanks. */
  function Tail(v: FieldValue): string
    requires !v.Lone?
  {
    match v
    case Missing(_) => ""
    case InQuotes(_, quoted) => "\"" + QuotedText(quoted)
    case Nested(_, text) => text
    case Bare(_, core, trailing) => core + trailing
  }

  function ValueText(v: FieldValue): string {
    if v.Lone? then "" else ":" + (v.blanks + Tail(v))
  }

  function ItemText(item: Item): string {
    match item
    case Other(c) => [c]
    case Member(key, blanks, value) => "\"" + (QuotedText(key) + (blanks + ValueText(value)))
  }

  function WholeText(items: seq<Item>): string {
    if items == [] then "" else ItemText(items[0]) + WholeText(items[1..])
  }

  // ----- What they say ------------------------------------------------------------------------------

  function Says(p: Piece): char {
    if p == Escaped('n') then '\n' else if p == Escaped('t') then '\t' else p.c
  }

  function Said(ps: seq<Piece>): string {
    seq(|ps|, i requires 0 <= i < |ps| => Says(ps[i]))
  }

  /** A nested value is passed over, and so is a key without a value; a bare one loses the blanks around it. */
  function Taken(v: FieldValue): Option<string> {
    match v case InQuotes(_, text) => Some(Said(text.pieces)) case Bare(_, core, _) => Some(core) case _ => None
  }

  function Listed(items: seq<Item>): Pairs {
    if items == [] then []
    else (if items[0].Member? && Taken(items[0].value).Some? then [(Said(items[0].key.pieces), Taken(items[0].value).value)] else [])
         + Listed(items[1..])
  }

  // ----- When they are well made --------------------------------------------------------------------

  function Turn(c: char): int {
    if c in "{[" then 1 else if c in "}]" then -1 else 0
  }

  /** How many brackets the text opens more than it closes. */
  function Balance(s: string): int {
    if s == "" then 0 else Turn(s[0]) + Balance(s[1..])
  }

  /** No quote inside without a backslash, no backslash but in front of a character or at the end of the whole text. */
  ghost predicate IsQuoted(q: Quoted, rest: string) {
    && (q.closed || rest == "")
    && forall i :: 0 <= i < |q.pieces| && q.pieces[i].Plain? ==>
         q.pieces[i].c !in "\"\\" || (!q.closed && i == |q.pieces| - 1 && q.pieces[i].c == '\\')
  }

  /** Brackets stay open up to the end, where they are all closed unless the whole text ends too. */
  ghost predicate IsNested(s: string, rest: string) {
    && s != "" && s[0] in "{["
    && (forall k :: 0 < k < |s| ==> Balance(s[..k]) > 0)
    && (Balance(s) == 0 || (Balance(s) > 0 && rest == ""))
  }

  ghost predicate IsBare(core: string, trailing: string, rest: string) {
    && IsBlank(trailing) && (forall c <- core + trailing :: c !in ",}]")
    && (if core == "" then trailing == "" && rest != ""
        else core[0] !in "\"{[" && !IsWhitespace(core[0]) && !IsWhitespace(core[|core| - 1]))
    && (rest == "" || rest[0] in ",}]")
  }

  ghost predicate IsValue(v: FieldValue, rest: string) {
    match v
    case Lone => rest == "" || (rest[0] != ':' && !IsWhitespace(rest[0]))
    case Missing(blanks) => IsBlank(blanks) && rest == ""
    case InQuotes(blanks, text) => IsBlank(blanks) && IsQuoted(text, rest)
    case Nested(blanks, text) => IsBlank(blanks) && IsNested(text, rest)
    case Bare(blanks, core, trailing) => IsBlank(blanks) && IsBare(core, trailing, rest)
  }

  /** Directly inside one bracket, a quote starts a member; elsewhere it is passed over like any character. */
  ghost predicate WellMade(items: seq<Item>, depth: nat) {
    items == [] ||
    var rest := WholeText(items[1..]);
    match items[0]
    case Other(c) =>
      !(c == '"' && depth == 1) && WellMade(items[1..], if depth + Turn(c) < 0 then 0 else depth + Turn(c))
    case Member(key, blanks, value) =>
      depth == 1 && IsQuoted(key, blanks + ValueText(value) + rest) && IsBlank(blanks) && IsValue(value, rest)
      && WellMade(items[1..], depth)
  }

  // ----- Reading what is well made ------------------------------------------------------------------

  lemma NothingThere(depth: nat)
    ensures Said([]) == "" && AfterBlanks("") == "" && WellMade([], depth) && WholeText([]) == ""
  {
  }

  lemma SaidFirst(ps: seq<Piece>)
    requires ps != []
    ensures Said(ps) == [Says(ps[0])] + Said(ps[1..])
  {
  }

  lemma PieceIsRead(p: Piece, t: string)
    requires p.Plain? ==> p.c != '"' && (p.c != '\\' || t == "")
    ensures StringAt(PieceText(p) + t) == ([Says(p)] + StringAt(t).0, StringAt(t).1)
  {
    var s := PieceText(p) + t;
    StringStep(s);
    assert if p.Escaped? then s[2..] == t else s[1..] == t;
  }

  lemma {:induction false} QuotedIsRead(q: Quoted, rest: string)
    requires IsQuoted(q, rest)
    ensures StringAt(QuotedText(q) + rest) == (Said(q.pieces), rest)
    decreases |q.pieces|
  {
    hide StringAt, Says, PieceText, Said;
    var s := QuotedText(q) + rest;
    if q.pieces == [] {
      StringStep(s);
      assert q.closed ==> s[1..] == rest;
      NothingThere(0);
    } else {
      var p, more := q.pieces[0], q.(pieces := q.pieces[1..]);
      var t := QuotedText(more) + rest;
      QuotedIsRead(more, rest);
      assert s == PieceText(p) + t;
      assert |q.pieces| == 1 && !q.closed ==> t == "";
      PieceIsRead(p, t);
      SaidFirst(q.pieces);
    }
  }

  lemma {:induction false} BlanksAreSkipped(blanks: string, rest: string)
    requires IsBlank(blanks) && (rest == "" || !IsWhitespace(rest[0]))
    ensures AfterBlanks(blanks + rest) == rest
  {
    if blanks == "" {
      assert blanks + rest == rest;
    } else {
      assert (blanks + rest)[1..] == blanks[1..] + rest && blanks[0] in blanks;
      BlanksAreSkipped(blanks[1..], rest);
    }
  }

  lemma BalanceFirst(s: string, k: nat)
    requires 0 < k <= |s|
    ensures Balance(s[..k]) == Turn(s[0]) + Balance(s[1..][..k - 1])
  {
    assert s[..k][1..] == s[1..][..k - 1];
  }

  lemma {:induction false} NestedIsSkipped(s: string, nested: nat, rest: string)
    requires s != "" && (nested > 0 || s[0] in "{[")
    requires forall k :: 0 < k < |s| ==> nested + Balance(s[..k]) > 0
    requires nested + Balance(s) == 0 || (nested + Balance(s) > 0 && rest == "")
    ensures AfterNested(s + rest, nested) == rest
    decreases |s|
  {
    var (c, t) := (s[0], s[1..]);
    assert (s + rest)[1..] == t + rest && (s + rest)[0] == c;
    BalanceFirst(s, |s|);
    assert s[..|s|] == s && t[..|s| - 1] == t;
    if t == "" {
      assert t + rest == rest;
    } else {
      assert nested + Turn(c) > 0 by { BalanceFirst(s, 1); assert s[1..][..0] == ""; }
      forall k | 0 < k < |t| ensures nested + Turn(c) + Balance(t[..k]) > 0 {
        BalanceFirst(s, k + 1);
      }
      NestedIsSkipped(t, nested + Turn(c), rest);
    }
  }

  lemma {:induction false} EndIsTrimmed(core: string, trailing: string)
    requires IsBlank(trailing) && (core == "" || !IsWhitespace(core[|core| - 1]))
    ensures TrimEnd(core + trailing, whitespace) == core
    decreases |trailing|
  {
    var s := core + trailing;
    if trailing == "" {
      assert s == core;
    } else {
      assert trailing[|trailing| - 1] in trailing && s[..|s| - 1] == core + trailing[..|trailing| - 1];
      EndIsTrimmed(core, trailing[..|trailing| - 1]);
    }
  }

  /** What is read depends on what follows the colon and the blanks. */
  lemma ColonIsRead(blanks: string, inner: string, u: string)
    requires IsBlank(blanks) && IsBlank(inner) && (u == "" || !IsWhitespace(u[0]))
    ensures ValueAt(blanks + (":" + (inner + u))) ==
            if u == "" then (None, "")
            else if u[0] == '"' then (Some(StringAt(u[1..]).0), StringAt(u[1..]).1)
            else if Opens(u[0]) then (None, AfterNested(u, 0))
            else (Some(Trimmed(BareAt(u).0)), BareAt(u).1)
  {
    hide AfterBlanks, StringAt, AfterNested, BareAt, Trimmed;
    assert !IsWhitespace(':');
    BlanksAreSkipped(blanks, ":" + (inner + u));
    BlanksAreSkipped(inner, u);
    assert (":" + (inner + u))[1..] == inner + u;
  }

  lemma TailIsRead(v: FieldValue, rest: string)
    requires !v.Lone? && IsValue(v, rest)
    ensures var u := Tail(v) + rest;
            && (u == "" || !IsWhitespace(u[0]))
            && (Taken(v), rest) ==
               if u == "" then (None, "")
               else if u[0] == '"' then (Some(StringAt(u[1..]).0), StringAt(u[1..]).1)
               else if Opens(u[0]) then (None, AfterNested(u, 0))
               else (Some(Trimmed(BareAt(u).0)), BareAt(u).1)
  {
    hide StringAt, AfterNested, BareAt, IsQuoted, Balance, TrimEnd, Said, QuotedText;
    var u := Tail(v) + rest;
    match v {
      case Missing(_) =>
      case InQuotes(_, quoted) =>
        QuotedIsRead(quoted, rest);
        assert u[1..] == QuotedText(quoted) + rest;
      case Nested(_, text) =>
        NestedIsSkipped(text, 0, rest);
      case Bare(_, core, trailing) =>
        BareIs(core + trailing, rest);
        EndIsTrimmed(core, trailing);
        assert TrimStart(core + trailing, whitespace) == core + trailing;
        assert core != "" ==> u[0] == core[0];
    }
  }

  lemma ValueIsRead(blanks: string, v: FieldValue, rest: string)
    requires IsBlank(blanks) && IsValue(v, rest)
    ensures ValueAt(blanks + ValueText(v) + rest) == (Taken(v), rest)
  {
    hide AfterBlanks, StringAt, AfterNested, BareAt, IsQuoted, IsNested, IsBare, IsWhitespace, Trimmed, Said, Tail, Opens;
    if v.Lone? {
      BlanksAreSkipped(blanks, rest);
      assert blanks + ValueText(v) + rest == blanks + rest;
      NothingThere(0);
    } else {
      assert IsBlank(v.blanks);
      TailIsRead(v, rest);
      ColonIsRead(blanks, v.blanks, Tail(v) + rest);
      assert blanks + ValueText(v) + rest == blanks + (":" + (v.blanks + (Tail(v) + rest)));
    }
  }

  lemma MemberIsRead(key: Quoted, blanks: string, value: FieldValue, rest: string)
    requires IsQuoted(key, blanks + ValueText(value) + rest) && IsBlank(blanks) && IsValue(value, rest)
    ensures FieldsAt(ItemText(Member(key, blanks, value)) + rest, 1) ==
            (if Taken(value).Some? then [(Said(key.pieces), Taken(value).value)] else []) + FieldsAt(rest, 1)
  {
    hide StringAt, ValueAt, IsQuoted, IsValue, QuotedText, ValueText, Taken, Said, FieldsAt;
    var s := ItemText(Member(key, blanks, value)) + rest;
    FieldsStep(s, 1);
    assert s[1..] == QuotedText(key) + (blanks + ValueText(value) + rest);
    QuotedIsRead(key, blanks + ValueText(value) + rest);
    ValueIsRead(blanks, value, rest);
  }

  /** Whatever is well made is read as it says. */
  lemma {:induction false} WellMadeIsRead(items: seq<Item>, depth: nat)
    requires WellMade(items, depth)
    ensures FieldsAt(WholeText(items), depth) == Listed(items)
  {
    hide FieldsAt, IsQuoted, IsValue, Taken, Said, ItemText, ValueText;
    if items == [] {
      NoFields(depth);
    } else {
      var rest := WholeText(items[1..]);
      match items[0] {
        case Other(c) =>
          OtherIsRead(c, rest, depth);
          WellMadeIsRead(items[1..], if depth + Turn(c) < 0 then 0 else depth + Turn(c));
          assert Listed(items) == [] + Listed(items[1..]);
        case Member(key, blanks, value) =>
          MemberIsRead(key, blanks, value, rest);
          WellMadeIsRead(items[1..], depth);
      }
    }
  }

  lemma OtherIsRead(c: char, rest: string, depth: nat)
    requires !(c == '"' && depth == 1)
    ensures FieldsAt(ItemText(Other(c)) + rest, depth) == FieldsAt(rest, if depth + Turn(c) < 0 then 0 else depth + Turn(c))
  {
    hide FieldsAt;
    FieldsStep([c] + rest, depth);
    assert ([c] + rest)[1..] == rest;
  }

  // ----- Every text is well made --------------------------------------------------------------------

  lemma {:induction false} QuotedExists(s: string) returns (q: Quoted, rest: string)
    ensures IsQuoted(q, rest) && s == QuotedText(q) + rest
  {
    if s == "" {
      q, rest := Quoted([], false), "";
    } else if s[0] == '"' {
      q, rest := Quoted([], true), s[1..];
    } else if s[0] == '\\' && |s| > 1 {
      var more;
      more, rest := QuotedExists(s[2..]);
      q := Quoted([Escaped(s[1])] + more.pieces, more.closed);
      assert q.pieces[1..] == more.pieces;
    } else {
      var more;
      more, rest := QuotedExists(s[1..]);
      q := Quoted([Plain(s[0])] + more.pieces, more.closed);
      assert q.pieces[1..] == more.pieces;
      assert s[0] == '\\' ==> QuotedText(more) == "" by { assert |s| == 1 || s[0] != '\\'; }
      assert s[0] == '\\' ==> more.pieces == [] && !more.closed;
    }
  }

  lemma {:induction false} BlanksExist(s: string) returns (blanks: string, rest: string)
    ensures s == blanks + rest && IsBlank(blanks) && (rest == "" || !IsWhitespace(rest[0]))
  {
    if s == "" || !IsWhitespace(s[0]) {
      blanks, rest := "", s;
    } else {
      blanks, rest := BlanksExist(s[1..]);
      blanks := [s[0]] + blanks;
    }
  }

  lemma {:induction false} NestedExists(s: string, nested: nat) returns (t: string, rest: string)
    requires s != "" && (nested > 0 || s[0] in "{[")
    ensures t != "" && s == t + rest
    ensures forall k :: 0 < k < |t| ==> nested + Balance(t[..k]) > 0
    ensures nested + Balance(t) == 0 || (nested + Balance(t) > 0 && rest == "")
    decreases |s|
  {
    var n := nested + Turn(s[0]);
    if n == 0 || |s| == 1 {
      t, rest := s[..1], s[1..];
      assert Balance(t[1..]) == 0;
    } else {
      var more;
      more, rest := NestedExists(s[1..], n);
      t := [s[0]] + more;
      assert t[1..] == more;
      forall k | 0 < k < |t| ensures nested + Balance(t[..k]) > 0 {
        BalanceFirst(t, k);
        if k == 1 {
          assert more[..0] == "";
        }
      }
    }
  }

  lemma {:induction false} BareExists(s: string) returns (text: string, rest: string)
    ensures s == text + rest && (forall c <- text :: c !in ",}]") && (rest == "" || rest[0] in ",}]")
  {
    if s == "" || s[0] in ",}]" {
      text, rest := "", s;
    } else {
      text, rest := BareExists(s[1..]);
      text := [s[0]] + text;
    }
  }

  lemma {:induction false} CoreExists(s: string) returns (core: string, trailing: string)
    ensures s == core + trailing && IsBlank(trailing) && (core == "" || !IsWhitespace(core[|core| - 1]))
    decreases |s|
  {
    if s == "" || !IsWhitespace(s[|s| - 1]) {
      core, trailing := s, "";
    } else {
      core, trailing := CoreExists(s[..|s| - 1]);
      trailing := trailing + [s[|s| - 1]];
    }
  }

  lemma BareValueExists(u: string) returns (core: string, trailing: string, rest: string)
    requires u != "" && u[0] !in "\"{[" && !IsWhitespace(u[0])
    ensures u == core + trailing + rest && IsBare(core, trailing, rest)
  {
    hide IsWhitespace;
    var text;
    text, rest := BareExists(u);
    core, trailing := CoreExists(text);
    assert text != "" ==> u[0] in text;
    if core == "" {
      assert trailing == text;
    } else {
      assert core[0] == text[0] == u[0];
    }
  }

  lemma NestedValueExists(u: string) returns (t: string, rest: string)
    requires u != "" && u[0] in "{["
    ensures u == t + rest && IsNested(t, rest)
  {
    t, rest := NestedExists(u, 0);
    assert t[0] == u[0];
  }

  lemma TailExists(inner: string, u: string) returns (v: FieldValue, rest: string)
    requires IsBlank(inner) && (u == "" || !IsWhitespace(u[0]))
    ensures !v.Lone? && v.blanks == inner && u == Tail(v) + rest && IsValue(v, rest)
  {
    hide IsQuoted, QuotedText, IsWhitespace, IsNested, IsBare;
    if u == "" {
      v, rest := Missing(inner), "";
    } else if u[0] == '"' {
      var q;
      q, rest := QuotedExists(u[1..]);
      v := InQuotes(inner, q);
    } else if u[0] in "{[" {
      var t;
      t, rest := NestedValueExists(u);
      v := Nested(inner, t);
    } else {
      var core, trailing;
      core, trailing, rest := BareValueExists(u);
      v := Bare(inner, core, trailing);
    }
  }

  lemma ValueExists(s: string) returns (blanks: string, v: FieldValue, rest: string)
    ensures s == blanks + ValueText(v) + rest && IsBlank(blanks) && IsValue(v, rest)
  {
    hide IsWhitespace, Tail;
    var after;
    blanks, after := BlanksExist(s);
    if after == "" || after[0] != ':' {
      v, rest := Lone, after;
    } else {
      var inner, u := BlanksExist(after[1..]);
      v, rest := TailExists(inner, u);
      assert after == ":" + (inner + u);
      assert s == blanks + (":" + (inner + Tail(v))) + rest;
    }
  }

  lemma PushOther(c: char, others: seq<Item>, depth: nat) returns (items: seq<Item>)
    requires !(c == '"' && depth == 1) && WellMade(others, if depth + Turn(c) < 0 then 0 else depth + Turn(c))
    ensures WellMade(items, depth) && WholeText(items) == [c] + WholeText(others)
  {
    hide Turn;
    items := [Other(c)] + others;
    assert items[1..] == others;
  }

  lemma PushMember(key: Quoted, blanks: string, value: FieldValue, others: seq<Item>) returns (items: seq<Item>)
    requires IsQuoted(key, blanks + ValueText(value) + WholeText(others)) && IsBlank(blanks) && IsValue(value, WholeText(others))
    requires WellMade(others, 1)
    ensures WellMade(items, 1)
    ensures WholeText(items) == "\"" + (QuotedText(key) + (blanks + ValueText(value) + WholeText(others)))
  {
    hide IsQuoted, IsValue, QuotedText, ValueText, IsBlank;
    items := [Member(key, blanks, value)] + others;
    assert items[1..] == others;
  }

  /** However a text is made, it is made of such items. */
  lemma {:induction false} EveryTextIsWellMade(s: string, depth: nat) returns (items: seq<Item>)
    ensures WellMade(items, depth) && WholeText(items) == s
    decreases |s|
  {
    hide IsQuoted, IsValue, QuotedText, ValueText, IsBlank, WellMade, WholeText, Turn;
    if s == "" {
      items := [];
      NothingThere(depth);
    } else if s[0] == '"' && depth == 1 {
      var key, more := QuotedExists(s[1..]);
      var blanks, value, rest := ValueExists(more);
      var others := EveryTextIsWellMade(rest, depth);
      items := PushMember(key, blanks, value, others);
      assert s == "\"" + s[1..];
    } else {
      var others := EveryTextIsWellMade(s[1..], if depth + Turn(s[0]) < 0 then 0 else depth + Turn(s[0]));
      items := PushOther(s[0], others, depth);
      assert s == [s[0]] + s[1..];
    }
  }

  // ----- The whole reader ---------------------------------------------------------------------------

  /** The reader's answer is the one map that says what the text's members say. */
  lemma ReadExactly(text: string, m: map<string, string>)
    ensures FlatJson(text) == m <==>
            exists items :: WellMade(items, 0) && WholeText(items) == text && LastListed(Listed(items), m)
  {
    hide WellMade, WholeText, Listed, LastListed, FieldsAt, MapOf;
    var found := EveryTextIsWellMade(text, 0);
    CollectedIsLastListed(Listed(found));
    WellMadeIsRead(found, 0);
    if items :| WellMade(items, 0) && WholeText(items) == text && LastListed(Listed(items), m) {
      WellMadeIsRead(items, 0);
      CollectedIsLastListed(Listed(items));
      LastListedIsOne(Listed(items), m, FlatJson(text));
    }
  }
}
