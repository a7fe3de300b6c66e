/** The reader of auth blocks: what each parsing operation returns, and the parser object that moves through
    the characters. */
module Parsing {
  import opened Prelude
  import opened Text

  datatype Value = Scalar(text: string) | ListOf(items: seq<string>) | EnumOf(items: seq<string>) | Block(entries: seq<Entry>)

  datatype Entry = Entry(key: string, value: Value)

  datatype Error =
    | MissingBrace | UnexpectedBrace | ExpectedSeparator(key: string) | UnexpectedCharacter(c: char) | UnexpectedEnd
    | ExpectedBracket | UnexpectedInList(c: char) | MissingBracket | ExpectedIdentifier(c: char) | UnterminatedString

  /** What was read, and the characters after it. */
  datatype Read<T> = Read(value: T, rest: string)

  predicate IsIdentChar(c: char) {
    'a' <= c <= 'z' || 'A' <= c <= 'Z' || '0' <= c <= '9' || c == '_' || c == '-' || c == '.'
  }

  /** Figures, letters of the English alphabet, and three marks. */
  lemma IdentCharsAre(c: char)
    ensures IsIdentChar(c) <==>
            0x30 <= c as int <= 0x39 || 0x41 <= c as int <= 0x5A || 0x61 <= c as int <= 0x7A || c as int in {0x2D, 0x2E, 0x5F}
  {
  }

  // ----- What is read -------------------------------------------------------------------------------

  function SkipLine(s: string): (rest: string)
    ensures |rest| <= |s| && (s != "" ==> |rest| < |s|)
  {
    if s == "" then "" else if s[0] == '\n' then s[1..] else SkipLine(s[1..])
  }

  predicate StartsComment(s: string) {
    s != "" && (s[0] == '#' || (s[0] == '/' && |s| > 1 && s[1] == '/'))
  }

  /** White space, commas and comments carry no meaning. */
  function SkipTrivia(s: string): (rest: string)
    ensures |rest| <= |s|
    decreases |s|
  {
    if s != "" && (IsWhitespace(s[0]) || s[0] == ',') then SkipTrivia(s[1..])
    else if StartsComment(s) then SkipTrivia(SkipLine(s))
    else s
  }

  /** The identifier characters at the front. */
  function TakeIdent(s: string): (read: Read<string>)
    ensures s == read.value + read.rest
    ensures forall c <- read.value :: IsIdentChar(c)
    ensures read.rest != "" ==> !IsIdentChar(read.rest[0])
  {
    if s == "" || !IsIdentChar(s[0]) then Read("", s)
    else
      var more := TakeIdent(s[1..]);
      Read([s[0]] + more.value, more.rest)
  }

  function ParseIdent(s: string): (r: Result<Read<string>, Error>)
    ensures r.Ok? ==> |r.value.rest| < |s|
  {
    var read := TakeIdent(s);
    if read.value == "" then Err(ExpectedIdentifier(if s == "" then ' ' else s[0])) else Ok(read)
  }

  /** Everything up to the next quote, which is dropped. */
  function TakeQuoted(s: string): (r: Result<Read<string>, Error>)
    ensures r.Ok? ==> s == r.value.value + "\"" + r.value.rest && '"' !in r.value.value
    ensures r.Err? ==> '"' !in s && r.error == UnterminatedString
  {
    if s == "" then Err(UnterminatedString)
    else if s[0] == '"' then Ok(Read("", s[1..]))
    else
      match TakeQuoted(s[1..])
      case Err(e) => Err(e)
      case Ok(more) => Ok(Read([s[0]] + more.value, more.rest))
  }

  /** One item of a list, or `None` at its end. */
  function ParseItem(s: string): (r: Result<Read<Option<string>>, Error>)
    ensures r.Ok? ==> |r.value.rest| < |s|
  {
    if s == "" then Err(MissingBracket)
    else if s[0] == ']' then Ok(Read(None, s[1..]))
    else if s[0] == '"' then
      match TakeQuoted(s[1..])
      case Err(e) => Err(e)
      case Ok(text) => Ok(Read(Some(text.value), text.rest))
    else if IsIdentChar(s[0]) then
      var text := TakeIdent(s);
      assert text.rest != s;
      Ok(Read(Some(text.value), text.rest))
    else Err(UnexpectedInList(s[0]))
  }

  /** The items up to the closing bracket. */
  function ParseItems(s: string): (r: Result<Read<seq<string>>, Error>)
    ensures r.Ok? ==> |r.value.rest| < |s|
    decreases |s|
  {
    match ParseItem(SkipTrivia(s))
    case Err(e) => Err(e)
    case Ok(item) =>
      if item.value.None? then Ok(Read([], item.rest))
      else
        match ParseItems(item.rest)
        case Err(e) => Err(e)
        case Ok(more) => Ok(Read([item.value.value] + more.value, more.rest))
  }

  function ParseList(s: string): (r: Result<Read<seq<string>>, Error>)
    ensures r.Ok? ==> |r.value.rest| < |s|
  {
    if s == "" || s[0] != '[' then Err(ExpectedBracket) else ParseItems(s[1..])
  }

  function ParseValue(s: string): (r: Result<Read<Value>, Error>)
    ensures r.Ok? ==> |r.value.rest| < |s|
    decreases |s|, 0
  {
    var t := SkipTrivia(s);
    if t == "" then Err(UnexpectedEnd)
    else if t[0] == '{' then
      match ParseEntries(t[1..], true)
      case Err(e) => Err(e)
      case Ok(read) => Ok(Read(Block(read.value), read.rest))
    else if t[0] == '[' then
      match ParseList(t)
      case Err(e) => Err(e)
      case Ok(read) => Ok(Read(ListOf(read.value), read.rest))
    else if t[0] == '"' then
      match TakeQuoted(t[1..])
      case Err(e) => Err(e)
      case Ok(read) => Ok(Read(Scalar(read.value), read.rest))
    else if IsIdentChar(t[0]) then
      match ParseIdent(t)
      case Err(e) => Err(e)
      case Ok(ident) =>
        if ident.value == "enum" && ident.rest != "" && ident.rest[0] == '[' then
          match ParseList(ident.rest)
          case Err(e) => Err(e)
          case Ok(read) => Ok(Read(EnumOf(read.value), read.rest))
        else Ok(Read(Scalar(ident.value), ident.rest))
    else Err(UnexpectedCharacter(t[0]))
  }

  /** What follows a key. */
  function ParseAfterKey(key: string, s: string): (r: Result<Read<Value>, Error>)
    ensures r.Ok? ==> |r.value.rest| < |s|
    decreases |s|, 1
  {
    var t := SkipTrivia(s);
    if t != "" && (t[0] == ':' || t[0] == '=') then ParseValue(t[1..])
    else if t != "" && t[0] == '{' then ParseValue(t)
    else Err(ExpectedSeparator(key))
  }

  /** The entries up to the closing brace, or up to the end of the text. */
  function ParseEntries(s: string, nested: bool): (r: Result<Read<seq<Entry>>, Error>)
    ensures r.Ok? ==> |r.value.rest| <= |s|
    decreases |s|, 2
  {
    var t := SkipTrivia(s);
    if t == "" then if nested then Err(MissingBrace) else Ok(Read([], t))
    else if t[0] == '}' then if nested then Ok(Read([], t[1..])) else Err(UnexpectedBrace)
    else
      match ParseIdent(t)
      case Err(e) => Err(e)
      case Ok(key) =>
        match ParseAfterKey(key.value, key.rest)
        case Err(e) => Err(e)
        case Ok(value) => Prepend(Entry(key.value, value.value), ParseEntries(value.rest, nested))
  }

  function Prepend<T>(first: T, read: Result<Read<seq<T>>, Error>): Result<Read<seq<T>>, Error> {
    match read
    case Err(e) => Err(e)
    case Ok(more) => Ok(Read([first] + more.value, more.rest))
  }

  function PrependAll<T>(prefix: seq<T>, read: Result<Read<seq<T>>, Error>): Result<Read<seq<T>>, Error> {
    match read
    case Err(e) => Err(e)
    case Ok(more) => Ok(Read(prefix + more.value, more.rest))
  }

  lemma PrependNone<T>(read: Result<Read<seq<T>>, Error>)
    ensures PrependAll([], read) == read
  {
    if read.Ok? {
      assert [] + read.value.value == read.value.value;
    }
  }

  lemma PrependLast<T>(prefix: seq<T>, last: T, read: Result<Read<seq<T>>, Error>)
    ensures PrependAll(prefix + [last], read) == PrependAll(prefix, Prepend(last, read))
  {
    if read.Ok? {
      assert prefix + [last] + read.value.value == prefix + ([last] + read.value.value);
    }
  }

  /** The identifier at the front is the longest one. */
  lemma {:induction false} IdentIs(a: string, b: string)
    requires (forall c <- a :: IsIdentChar(c)) && (b != "" ==> !IsIdentChar(b[0]))
    ensures TakeIdent(a + b) == Read(a, b)
  {
    if a == "" {
      assert a + b == b;
    } else {
      assert (a + b)[1..] == a[1..] + b && a == [a[0]] + a[1..];
      IdentIs(a[1..], b);
    }
  }

  lemma {:induction false} QuotedIs(a: string, b: string)
    requires '"' !in a
    ensures TakeQuoted(a + "\"" + b) == Ok(Read(a, b))
  {
    if a == "" {
      assert (a + "\"" + b)[1..] == b;
    } else {
      assert (a + "\"" + b)[1..] == a[1..] + "\"" + b && a == [a[0]] + a[1..];
      QuotedIs(a[1..], b);
    }
  }

  lemma {:induction false} NeverClosed(s: string)
    requires '"' !in s
    ensures TakeQuoted(s) == Err(UnterminatedString)
  {
    if s != "" {
      NeverClosed(s[1..]);
    }
  }

  // ----- The parser object --------------------------------------------------------------------------

  /** The outcome `r` and the remaining text `rest` are what the specification says. */
  ghost predicate Yields<T(!new)>(r: Result<T, Error>, rest: string, spec: Result<Read<T>, Error>) {
    match spec
    case Err(e) => r == Err(e)
    case Ok(read) => r == Ok(read.value) && rest == read.rest
  }

  class Parser {
    const chars: string
    var pos: nat

    ghost predicate Valid()
      reads this`pos
    {
      pos <= |chars|
    }

    ghost function Rest(): string
      reads this`pos
      requires Valid()
    {
      chars[pos..]
    }

    constructor (src: string)
      ensures Valid() && Rest() == src
    {
      chars := src;
      pos := 0;
    }

    function PeekAt(offset: nat): (r: Option<char>)
      reads this`pos
      requires Valid()
      ensures r == if offset < |Rest()| then Some(Rest()[offset]) else None
    {
      if pos + offset < |chars| then Some(chars[pos + offset]) else None
    }

    function Peek(): (r: Option<char>)
      reads this`pos
      requires Valid()
      ensures r == if Rest() == "" then None else Some(Rest()[0])
    {
      PeekAt(0)
    }

    method Advance()
      requires Valid() && Rest() != ""
      modifies this`pos
      ensures Valid() && Rest() == old(Rest())[1..] && pos == old(pos) + 1
    {
      pos := pos + 1;
    }

    method SkipRestOfLine()
      requires Valid()
      modifies this`pos
      ensures Valid() && Rest() == SkipLine(old(Rest()))
    {
      while Peek().Some?
        invariant Valid() && SkipLine(Rest()) == SkipLine(old(Rest()))
        decreases |Rest()|
      {
        var c := Peek().value;
        Advance();
        if c == '\n' {
          return;
        }
      }
    }

    method SkipOverTrivia()
      requires Valid()
      modifies this`pos
      ensures Valid() && Rest() == SkipTrivia(old(Rest()))
    {
      while true
        invariant Valid() && SkipTrivia(Rest()) == SkipTrivia(old(Rest()))
        decreases |Rest()|
      {
        var c := Peek();
        if c.Some? && (IsWhitespace(c.value) || c.value == ',') {
          Advance();
        } else if c == Some('#') {
          SkipRestOfLine();
        } else if c == Some('/') && PeekAt(1) == Some('/') {
          SkipRestOfLine();
        } else {
          return;
        }
      }
    }

    method ReadIdent() returns (r: Result<string, Error>)
      requires Valid()
      modifies this`pos
      ensures Valid() && Yields(r, Rest(), ParseIdent(old(Rest())))
    {
      hide TakeIdent;
      var start := pos;
      while Peek().Some?
        invariant start == old(pos) <= pos && Valid()
        invariant forall k :: start <= k < pos ==> IsIdentChar(chars[k])
        decreases |Rest()|
      {
        if IsIdentChar(Peek().value) {
          Advance();
        } else {
          break;
        }
      }
      var text := chars[start..pos];
      assert old(Rest()) == text + Rest();
      IdentIs(text, Rest());
      if start == pos {
        assert old(Rest()) == Rest();
        return Err(ExpectedIdentifier(if Peek().Some? then Peek().value else ' '));
      }
      r := Ok(text);
    }

    /** Called at an opening quote. */
    method ReadQuoted() returns (r: Result<string, Error>)
      requires Valid() && Rest() != ""
      modifies this`pos
      ensures Valid() && Yields(r, Rest(), TakeQuoted(old(Rest())[1..]))
    {
      hide TakeQuoted;
      Advance();
      var start := pos;
      ghost var inside := Rest();
      while Peek().Some?
        invariant start == old(pos) + 1 <= pos && Valid()
        invariant forall k :: start <= k < pos ==> chars[k] != '"'
        decreases |Rest()|
      {
        if Peek().value == '"' {
          var text := chars[start..pos];
          Advance();
          assert inside == text + "\"" + Rest();
          QuotedIs(text, Rest());
          return Ok(text);
        }
        Advance();
      }
      assert inside == chars[start..];
      NeverClosed(inside);
      r := Err(UnterminatedString);
    }

    method ReadList() returns (r: Result<seq<string>, Error>)
      requires Valid()
      modifies this`pos
      ensures Valid() && Yields(r, Rest(), ParseList(old(Rest())))
    {
      hide TakeIdent, TakeQuoted, SkipTrivia, IsIdentChar;
      if Peek() != Some('[') {
        return Err(ExpectedBracket);
      }
      Advance();
      var items := [];
      ghost var inside := Rest();
      PrependNone(ParseItems(inside));
      while true
        invariant Valid() && PrependAll(items, ParseItems(Rest())) == ParseItems(inside)
        decreases |Rest()|
      {
        ghost var spec := ParseItems(Rest());
        SkipOverTrivia();
        var c := Peek();
        var item;
        if c == Some(']') {
          Advance();
          assert items + [] == items;
          return Ok(items);
        } else if c == Some('"') {
          var text := ReadQuoted();
          if text.Err? {
            return Err(text.error);
          }
          item := text.value;
        } else if c.Some? && IsIdentChar(c.value) {
          var text := ReadIdent();
          item := text.value;
        } else if c.Some? {
          return Err(UnexpectedInList(c.value));
        } else {
          return Err(MissingBracket);
        }
        assert spec == Prepend(item, ParseItems(Rest()));
        PrependLast(items, item, ParseItems(Rest()));
        items := items + [item];
      }
    }

    method ReadValue() returns (r: Result<Value, Error>)
      requires Valid()
      modifies this`pos
      ensures Valid() && Yields(r, Rest(), ParseValue(old(Rest())))
      decreases |Rest()|, 0
    {
      SkipOverTrivia();
      var c := Peek();
      if c == Some('{') {
        Advance();
        var entries := ReadEntries(true);
        r := if entries.Err? then Err(entries.error) else Ok(Block(entries.value));
      } else if c == Some('[') {
        var items := ReadList();
        r := if items.Err? then Err(items.error) else Ok(ListOf(items.value));
      } else if c == Some('"') {
        var text := ReadQuoted();
        r := if text.Err? then Err(text.error) else Ok(Scalar(text.value));
      } else if c.Some? && IsIdentChar(c.value) {
        var ident := ReadIdent();
        if ident.value == "enum" && Peek() == Some('[') {
          var items := ReadList();
          return if items.Err? then Err(items.error) else Ok(EnumOf(items.value));
        }
        r := Ok(Scalar(ident.value));
      } else if c.Some? {
        r := Err(UnexpectedCharacter(c.value));
      } else {
        r := Err(UnexpectedEnd);
      }
    }

    method ReadEntries(nested: bool) returns (r: Result<seq<Entry>, Error>)
      requires Valid()
      modifies this`pos
      ensures Valid() && Yields(r, Rest(), ParseEntries(old(Rest()), nested))
      decreases |Rest()|, 2
    {
      var entries := [];
      PrependNone(ParseEntries(Rest(), nested));
      while true
        invariant Valid() && |Rest()| <= |old(Rest())|
        invariant PrependAll(entries, ParseEntries(Rest(), nested)) == ParseEntries(old(Rest()), nested)
        decreases |Rest()|
      {
        ghost var spec := ParseEntries(Rest(), nested);
        SkipOverTrivia();
        var c := Peek();
        assert entries + [] == entries;
        if c == None {
          return if nested then Err(MissingBrace) else Ok(entries);
        }
        if c == Some('}') {
          if !nested {
            return Err(UnexpectedBrace);
          }
          Advance();
          return Ok(entries);
        }
        var key := ReadIdent();
        if key.Err? {
          return Err(key.error);
        }
        var value := ReadAfterKey(key.value);
        if value.Err? {
          return Err(value.error);
        }
        assert spec == Prepend(Entry(key.value, value.value), ParseEntries(Rest(), nested));
        PrependLast(entries, Entry(key.value, value.value), ParseEntries(Rest(), nested));
        entries := entries + [Entry(key.value, value.value)];
      }
    }

    method ReadAfterKey(key: string) returns (r: Result<Value, Error>)
      requires Valid()
      modifies this`pos
      ensures Valid() && Yields(r, Rest(), ParseAfterKey(key, old(Rest())))
      decreases |Rest()|, 1
    {
      SkipOverTrivia();
      var c := Peek();
      if c == Some(':') || c == Some('=') {
        Advance();
        r := ReadValue();
      } else if c == Some('{') {
        r := ReadValue();
      } else {
        r := Err(ExpectedSeparator(key));
      }
    }
  }
}
