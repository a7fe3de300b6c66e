/** How the proxy writes a body, and how the server reads it. */
module JsonBody {
  import opened Prelude
  import opened Text
  import opened Utf8
  import opened QueryString

  // ----- Writing ------------------------------------------------------------------------------------

  function Replace(s: string, c: char, text: string): string {
    if s == "" then "" else (if s[0] == c then text else [s[0]]) + Replace(s[1..], c, text)
  }

  function Escape(value: string): string {
    Replace(Replace(Replace(value, '\\', "\\\\"), '"', "\\\""), '\n', "\\n")
  }

  function Field(pair: (string, string)): string {
    "\"" + Escape(pair.0) + "\": \"" + Escape(pair.1) + "\""
  }

  function Fields(pairs: Pairs): string {
    if pairs == [] then ""
    else if |pairs| == 1 then Field(pairs[0])
    else Field(pairs[0]) + ", " + Fields(pairs[1..])
  }

  /** An empty body is written as nothing at all. */
  function EncodeBody(pairs: Pairs): seq<byte> {
    if pairs == [] then [] else Encode("{" + Fields(pairs) + "}")
  }

  // ----- What is read -------------------------------------------------------------------------------

  function Unescape(c: char): char {
    if c == 'n' then '\n' else if c == 't' then '\t' else c
  }

  /** The text up to the closing quote, and what follows the quote. */
  function StringAt(s: string): (r: (string, string))
    ensures |r.1| <= |s|
  {
    if s == "" then ("", "")
    else if s[0] == '\\' && |s| > 1 then
      var (value, rest) := StringAt(s[2..]);
      ([Unescape(s[1])] + value, rest)
    else if s[0] == '"' then ("", s[1..])
    else
      var (value, rest) := StringAt(s[1..]);
      ([s[0]] + value, rest)
  }

  function AfterBlanks(s: string): (r: string)
    ensures |r| <= |s|
  {
    if s != "" && IsWhitespace(s[0]) then AfterBlanks(s[1..]) else s
  }

  predicate Opens(c: char) { c == '{' || c == '[' }

  predicate Closes(c: char) { c == '}' || c == ']' }

  /** What follows a nested value of which `nested` brackets are open. */
  function AfterNested(s: string, nested: nat): (r: string)
    requires nested > 0 || (s != "" && Opens(s[0]))
    ensures |r| <= |s| && (s != "" ==> |r| < |s|)
    decreases |s|
  {
    if s == "" then ""
    else if Opens(s[0]) then AfterNested(s[1..], nested + 1)
    else if Closes(s[0]) then if nested == 1 then s[1..] else AfterNested(s[1..], nested - 1)
    else AfterNested(s[1..], nested)
  }

  predicate EndsBare(c: char) { c == ',' || c == '}' || c == ']' }

  /** An unquoted value and what follows it. */
  function BareAt(s: string): (r: (string, string))
    ensures |r.1| <= |s| && s == r.0 + r.1
  {
    if s == "" || EndsBare(s[0]) then ("", s)
    else
      var (value, rest) := BareAt(s[1..]);
      ([s[0]] + value, rest)
  }

  /** What is read after a key: perhaps its value, and the rest. */
  function ValueAt(s: string): (r: (Option<string>, string))
    ensures |r.1| <= |s|
  {
    var t := AfterBlanks(s);
    if t == "" || t[0] != ':' then (None, t)
    else
      var u := AfterBlanks(t[1..]);
      if u == "" then (None, "")
      else if u[0] == '"' then var (value, rest) := StringAt(u[1..]); (Some(value), rest)
      else if Opens(u[0]) then (None, AfterNested(u, 0))
      else var (value, rest) := BareAt(u); (Some(Trimmed(value)), rest)
  }

  /** The fields of the flat object read from `s` on, in order, with `depth` brackets open. */
  function FieldsAt(s: string, depth: nat): Pairs
    decreases |s|
  {
    if s == "" then []
    else if Opens(s[0]) then FieldsAt(s[1..], depth + 1)
    else if Closes(s[0]) then FieldsAt(s[1..], if depth == 0 then 0 else depth - 1)
    else if s[0] == '"' && depth == 1 then
      var (key, rest) := StringAt(s[1..]);
      var (value, more) := ValueAt(rest);
      (if value.Some? then [(key, value.value)] else []) + FieldsAt(more, depth)
    else FieldsAt(s[1..], depth)
  }

  function FlatJson(input: string): map<string, string> {
    MapOf(FieldsAt(input, 0))
  }

  // ----- Reading, by index --------------------------------------------------------------------------

  /** More text in front of what was read. */
  function InFront(text: string, read: (string, string)): (string, string) {
    (text + read.0, read.1)
  }

  lemma InFrontJoins(a: string, b: string, read: (string, string))
    ensures InFront(a, InFront(b, read)) == InFront(a + b, read)
    ensures InFront("", read) == read
  {
    assert a + (b + read.0) == a + b + read.0 && "" + read.0 == read.0;
  }

  /** One step of reading a string. */
  lemma StringStep(s: string)
    ensures s != "" && s[0] == '\\' && |s| > 1 ==> StringAt(s) == InFront([Unescape(s[1])], StringAt(s[2..]))
    ensures s != "" && s[0] == '"' ==> StringAt(s) == ("", s[1..])
    ensures s != "" && s[0] != '"' && (s[0] != '\\' || |s| == 1) ==> StringAt(s) == InFront([s[0]], StringAt(s[1..]))
    ensures s == "" ==> StringAt(s) == ("", "")
  {
  }

  method ReadJsonString(chars: string, start: nat) returns (value: string, next: nat)
    requires start < |chars|
    ensures start < next <= |chars| && (value, chars[next..]) == StringAt(chars[start + 1..])
  {
    hide StringAt, Unescape, InFront;
    var index := start + 1;
    value := "";
    ghost var whole := StringAt(chars[start + 1..]);
    InFrontJoins("", "", whole);
    while index < |chars|
      invariant start < index <= |chars|
      invariant whole == InFront(value, StringAt(chars[index..]))
      decreases |chars| - index
    {
      ghost var rest := chars[index..];
      StringStep(rest);
      assert rest[0] == chars[index] && rest[1..] == chars[index + 1..];
      if chars[index] == '\\' && index + 1 < |chars| {
        assert rest[2..] == chars[index + 2..] && rest[1] == chars[index + 1];
        InFrontJoins(value, [Unescape(chars[index + 1])], StringAt(rest[2..]));
        value := value + [Unescape(chars[index + 1])];
        index := index + 2;
      } else if chars[index] == '"' {
        index := index + 1;
        assert InFront(value, ("", chars[index..])) == (value, chars[index..]) by { InFrontEnd(value, chars[index..]); }
        return value, index;
      } else {
        InFrontJoins(value, [chars[index]], StringAt(rest[1..]));
        value := value + [chars[index]];
        index := index + 1;
      }
    }
    StringStep("");
    InFrontEnd(value, "");
    assert chars[index..] == "";
    next := index;
  }

  lemma InFrontEnd(value: string, rest: string)
    ensures InFront(value, ("", rest)) == (value, rest)
  {
    assert value + "" == value;
  }

  method SkipBlanks(chars: string, start: nat) returns (index: nat)
    requires start <= |chars|
    ensures start <= index <= |chars| && chars[index..] == AfterBlanks(chars[start..])
  {
    index := start;
    while index < |chars| && IsWhitespace(chars[index])
      invariant start <= index <= |chars| && AfterBlanks(chars[index..]) == AfterBlanks(chars[start..])
    {
      assert chars[index..][1..] == chars[index + 1..];
      index := index + 1;
    }
  }

  method SkipNested(chars: string, start: nat) returns (index: nat)
    requires start < |chars| && Opens(chars[start])
    ensures start < index <= |chars| && chars[index..] == AfterNested(chars[start..], 0)
  {
    var nested: nat := 0;
    index := start;
    while index < |chars|
      invariant start <= index <= |chars| && (index == start ==> nested == 0) && (index > start ==> nested > 0)
      invariant AfterNested(chars[index..], nested) == AfterNested(chars[start..], 0)
    {
      assert chars[index..][1..] == chars[index + 1..];
      if Opens(chars[index]) {
        nested := nested + 1;
      } else if Closes(chars[index]) {
        nested := nested - 1;
        if nested == 0 {
          index := index + 1;
          break;
        }
      }
      index := index + 1;
    }
  }

  lemma {:induction false} BareIs(a: string, b: string)
    requires (forall c <- a :: !EndsBare(c)) && (b == "" || EndsBare(b[0]))
    ensures BareAt(a + b) == (a, b)
  {
    hide EndsBare;
    if a == "" {
      assert a + b == b;
    } else {
      var s := a + b;
      assert a[0] in a && s[0] == a[0] && s[1..] == a[1..] + b;
      BareIs(a[1..], b);
      assert BareAt(s) == ([a[0]] + BareAt(s[1..]).0, BareAt(s[1..]).1);
      assert a == [a[0]] + a[1..];
    }
  }

  method ReadBare(chars: string, start: nat) returns (value: string, index: nat)
    requires start < |chars|
    ensures start <= index <= |chars| && (value, chars[index..]) == BareAt(chars[start..])
  {
    index := start;
    while index < |chars| && !EndsBare(chars[index])
      invariant start <= index <= |chars| && forall k :: start <= k < index ==> !EndsBare(chars[k])
    {
      index := index + 1;
    }
    value := chars[start..index];
    assert chars[start..] == value + chars[index..];
    BareIs(value, chars[index..]);
  }

  lemma PairsJoin(pairs: Pairs, last: (string, string))
    ensures MapOf(pairs + [last]) == MapOf(pairs)[last.0 := last.1]
  {
    assert (pairs + [last])[..|pairs|] == pairs;
  }

  /** One step of reading the fields. */
  lemma FieldsStep(s: string, depth: nat)
    requires s != ""
    ensures Opens(s[0]) ==> FieldsAt(s, depth) == FieldsAt(s[1..], depth + 1)
    ensures Closes(s[0]) ==> FieldsAt(s, depth) == FieldsAt(s[1..], if depth == 0 then 0 else depth - 1)
    ensures s[0] == '"' && depth == 1 ==>
              var (key, rest) := StringAt(s[1..]);
              var (value, more) := ValueAt(rest);
              FieldsAt(s, depth) == (if value.Some? then [(key, value.value)] else []) + FieldsAt(more, depth)
    ensures !Opens(s[0]) && !Closes(s[0]) && !(s[0] == '"' && depth == 1) ==> FieldsAt(s, depth) == FieldsAt(s[1..], depth)
  {
    hide StringAt, ValueAt;
  }

  method ParseFlatJson(chars: string) returns (out: map<string, string>)
    ensures out == FlatJson(chars)
  {
    hide StringAt, ValueAt, MapOf, FieldsAt, Opens, Closes;
    out := map[];
    ghost var pairs: Pairs := [];
    var index: nat, depth: nat := 0, 0;
    assert MapOf([]) == map[] by { NoPairs(); }
    assert pairs + FieldsAt(chars, 0) == FieldsAt(chars, 0) && chars[index..] == chars;
    while index < |chars|
      invariant index <= |chars| && out == MapOf(pairs)
      invariant pairs + FieldsAt(chars[index..], depth) == FieldsAt(chars, 0)
      decreases |chars| - index
    {
      FieldsStep(chars[index..], depth);
      assert chars[index..][1..] == chars[index + 1..];
      if Opens(chars[index]) {
        depth := depth + 1;
        index := index + 1;
      } else if Closes(chars[index]) {
        depth := if depth == 0 then 0 else depth - 1;
        index := index + 1;
      } else if chars[index] == '"' && depth == 1 {
        var key, value, next := ReadField(chars, index);
        ghost var field := if value.Some? then [(key, value.value)] else [];
        assert pairs + (field + FieldsAt(chars[next..], depth)) == pairs + field + FieldsAt(chars[next..], depth);
        if value.Some? {
          PairsJoin(pairs, (key, value.value));
          out := out[key := value.value];
        } else {
          assert pairs + [] == pairs;
        }
        pairs := pairs + field;
        index := next;
      } else {
        index := index + 1;
      }
    }
    assert chars[index..] == "" && pairs + [] == pairs;
    NoFields(depth);
  }

  /** One pass over a key and what comes after it. */
  method ReadField(chars: string, start: nat) returns (key: string, value: Option<string>, next: nat)
    requires start < |chars|
    ensures start < next <= |chars| && key == StringAt(chars[start + 1..]).0
    ensures (value, chars[next..]) == ValueAt(StringAt(chars[start + 1..]).1)
  {
    hide StringAt, AfterBlanks, BareAt, AfterNested;
    var index;
    key, index := ReadJsonString(chars, start);
    index := SkipBlanks(chars, index);
    if index >= |chars| || chars[index] != ':' {
      return key, None, index;
    }
    assert chars[index..][1..] == chars[index + 1..];
    index := SkipBlanks(chars, index + 1);
    if index >= |chars| {
      return key, None, index;
    }
    if chars[index] == '"' {
      assert chars[index..][1..] == chars[index + 1..];
      var text, after := ReadJsonString(chars, index);
      return key, Some(text), after;
    }
    if Opens(chars[index]) {
      index := SkipNested(chars, index);
      return key, None, index;
    }
    var bare, after := ReadBare(chars, index);
    return key, Some(Trimmed(bare)), after;
  }

  // ----- Round trip ---------------------------------------------------------------------------------

  /** Escaping one character at a time. */
  function EscapeChar(c: char): string {
    if c == '\\' then "\\\\" else if c == '"' then "\\\"" else if c == '\n' then "\\n" else [c]
  }

  lemma {:induction false} ReplaceJoins(a: string, b: string, c: char, text: string)
    ensures Replace(a + b, c, text) == Replace(a, c, text) + Replace(b, c, text)
  {
    if a == "" {
      assert a + b == b;
    } else {
      assert (a + b)[1..] == a[1..] + b;
      ReplaceJoins(a[1..], b, c, text);
    }
  }

  lemma ReplaceOne(c: char, d: char, text: string)
    ensures Replace([d], c, text) == if d == c then text else [d]
  {
    assert Replace("", c, text) == "";
  }

  lemma ReplaceTwo(d: char, e: char, c: char, text: string)
    requires d != c && e != c
    ensures Replace([d, e], c, text) == [d, e]
  {
    ReplaceJoins([d], [e], c, text);
    ReplaceOne(c, d, text);
    ReplaceOne(c, e, text);
    assert [d, e] == [d] + [e];
  }

  /** The three passes never touch each other's output. */
  lemma EscapeFirst(c: char, s: string)
    ensures Escape([c] + s) == EscapeChar(c) + Escape(s)
  {
    hide Replace;
    var a, b := "\\\\", "\\\"";
    var s1 := Replace(s, '\\', a);
    var s2 := Replace(s1, '"', b);
    var c1 := Replace([c], '\\', a);
    ReplaceJoins([c], s, '\\', a);
    ReplaceOne('\\', c, a);
    var c2 := Replace(c1, '"', b);
    ReplaceJoins(c1, s1, '"', b);
    ReplaceJoins(c2, s2, '\n', "\\n");
    if c == '\\' {
      ReplaceTwo('\\', '\\', '"', b);
      ReplaceTwo('\\', '\\', '\n', "\\n");
    } else {
      ReplaceOne('"', c, b);
      if c == '"' {
        ReplaceTwo('\\', '"', '\n', "\\n");
      } else {
        ReplaceOne('\n', c, "\\n");
      }
    }
  }

  lemma EscapeNothing()
    ensures Escape("") == ""
  {
  }

  /** A quoted and escaped text is read back, whatever follows the quote. */
  lemma {:induction false} StringReadsBack(value: string, rest: string)
    ensures StringAt(Escape(value) + ("\"" + rest)) == (value, rest)
  {
    hide Escape;
    if value == "" {
      EscapeNothing();
      assert Escape(value) + ("\"" + rest) == "\"" + rest && ("\"" + rest)[1..] == rest;
    } else {
      var c, more := value[0], Escape(value[1..]) + ("\"" + rest);
      assert value == [c] + value[1..];
      EscapeFirst(c, value[1..]);
      StringReadsBack(value[1..], rest);
      var s := Escape(value) + ("\"" + rest);
      assert s == EscapeChar(c) + more;
      if |EscapeChar(c)| == 2 {
        assert s[2..] == more;
      } else {
        assert s[1..] == more;
      }
    }
  }

  lemma FieldReadsBack(pair: (string, string), rest: string)
    ensures FieldsAt(Field(pair) + rest, 1) == [pair] + FieldsAt(rest, 1)
  {
    hide Escape, StringAt;
    var value := " \"" + (Escape(pair.1) + ("\"" + rest));
    var after := ":" + value;
    var s := Field(pair) + rest;
    assert s == "\"" + (Escape(pair.0) + ("\"" + after));
    StringReadsBack(pair.0, after);
    StringReadsBack(pair.1, rest);
    assert s[1..] == Escape(pair.0) + ("\"" + after);
    assert after[1..] == value;
    assert value[1..] == "\"" + (Escape(pair.1) + ("\"" + rest)) && value[1..][1..] == Escape(pair.1) + ("\"" + rest);
    assert AfterBlanks(value) == value[1..];
    assert ValueAt(after) == (Some(pair.1), rest);
  }

  lemma {:induction false} FieldsReadBack(pairs: Pairs)
    requires pairs != []
    ensures FieldsAt(Fields(pairs) + "}", 1) == pairs
  {
    hide Field, FieldsAt;
    if |pairs| == 1 {
      FieldReadsBack(pairs[0], "}");
      BraceEndsFields();
      assert pairs == [pairs[0]] + [];
    } else {
      var more := Fields(pairs[1..]) + "}";
      FieldsReadBack(pairs[1..]);
      FieldReadsBack(pairs[0], ", " + more);
      CommaIsSkipped(more);
      assert Fields(pairs) + "}" == Field(pairs[0]) + (", " + more);
      assert pairs == [pairs[0]] + pairs[1..];
    }
  }

  lemma BraceEndsFields()
    ensures FieldsAt("}", 1) == []
  {
    assert "}"[1..] == "";
  }

  lemma CommaIsSkipped(more: string)
    ensures FieldsAt(", " + more, 1) == FieldsAt(more, 1)
  {
    assert (", " + more)[1..] == " " + more && (" " + more)[1..] == more;
  }

  /** Reading a written body gives back its fields, for every list of fields. */
  lemma BodyReadsBack(pairs: Pairs)
    ensures FlatJson(DecodeLossy(EncodeBody(pairs))) == MapOf(pairs)
  {
    hide FieldsAt, Fields, Encode, DecodeLossy;
    if pairs == [] {
      NothingToRead();
      assert FieldsAt("", 0) == [] by { NoFields(0); }
    } else {
      var text := "{" + Fields(pairs) + "}";
      TextDecodes(text, []);
      NothingToRead();
      assert Encode(text) + [] == Encode(text) && text + "" == text;
      FieldsReadBack(pairs);
      BraceStartsFields(Fields(pairs) + "}");
      assert text == "{" + (Fields(pairs) + "}");
    }
  }

  lemma NoFields(depth: nat)
    ensures FieldsAt("", depth) == []
  {
  }

  lemma BraceStartsFields(rest: string)
    ensures FieldsAt("{" + rest, 0) == FieldsAt(rest, 1)
  {
    assert ("{" + rest)[1..] == rest;
  }

  /** Every map of texts can be listed, and survives being written as a body from any of its listings and read back. */
  lemma BodyCarriesMap(m: map<string, string>)
    ensures exists pairs :: Lists(pairs, m)
    ensures forall pairs :: Lists(pairs, m) ==> FlatJson(DecodeLossy(EncodeBody(pairs))) == m
  {
    hide FlatJson, EncodeBody, DecodeLossy, MapOf, Lists;
    var some := EveryMapIsListed(m);
    forall pairs | Lists(pairs, m) ensures FlatJson(DecodeLossy(EncodeBody(pairs))) == m {
      ListedIsCollected(pairs, m);
      BodyReadsBack(pairs);
    }
  }

  // ----- Choosing the reader ------------------------------------------------------------------------

  /** The proxy forwards the content type the client sent, and names JSON when there is a body but no type. */
  function ForwardedType(contentType: Option<string>, body: seq<byte>): string {
    if contentType.Some? then contentType.value else if body == [] then "" else "application/json"
  }

  /** The server picks a reader by the content type. */
  function ParsedBody(contentType: string, body: seq<byte>): map<string, string> {
    var text := DecodeLossy(body);
    if HasText(contentType, "json") then FlatJson(text)
    else if HasText(contentType, "form-urlencoded") then ParseForm(text)
    else if AfterBlanks(text) != "" && AfterBlanks(text)[0] == '{' then FlatJson(text)
    else ParseForm(text)
  }

  lemma WrittenText(pairs: Pairs)
    ensures DecodeLossy(EncodeBody(pairs)) == if pairs == [] then "" else "{" + Fields(pairs) + "}"
  {
    hide Encode, DecodeLossy, Fields;
    NothingToRead();
    if pairs != [] {
      var text := "{" + Fields(pairs) + "}";
      TextDecodes(text, []);
      assert Encode(text) + [] == Encode(text) && text + "" == text;
    }
  }

  lemma EmptyForm()
    ensures ParseForm("") == map[] && FlatJson("") == map[]
  {
    EmptySplits('&');
    assert FormPairs([""]) == [] by { assert [""][1..] == []; }
    NoPairs();
    NoFields(0);
  }

  /** A text without marks is no form. */
  lemma NoFormIn(text: string)
    requires '&' !in text && '=' !in text
    ensures ParseForm(text) == map[]
  {
    SplitPlain('&', text);
    assert [text][1..] == [];
    assert FormPairs([text]) == FormPairs([]);
    NoPairs();
  }

  lemma SmallBody()
    ensures Fields([("a", "b")]) == "\"a\": \"b\""
  {
    EscapeNothing();
    EscapeFirst('a', "");
    EscapeFirst('b', "");
    assert "a" == ['a'] + "" && "b" == ['b'] + "";
    assert Escape("a") == "a" && Escape("b") == "b";
  }

  lemma DefaultType()
    ensures HasText("application/json", "json") && !HasText("", "json") && !HasText("", "form-urlencoded")
  {
    assert StartsAt("application/json", "json", 12);
  }

  /** Every forwarded body is read back exactly when the client's content type, if any, mentions JSON or does not
      mention a form. */
  lemma ForwardedBodyReadsBackExactly(contentType: Option<string>)
    ensures (forall pairs: Pairs :: ParsedBody(ForwardedType(contentType, EncodeBody(pairs)), EncodeBody(pairs)) == MapOf(pairs))
            <==>
            (contentType.Some? ==> HasText(contentType.value, "json") || !HasText(contentType.value, "form-urlencoded"))
  {
    hide HasText, FlatJson, ParseForm, EncodeBody, MapOf, Fields, DecodeLossy;
    DefaultType();
    if contentType.Some? ==> HasText(contentType.value, "json") || !HasText(contentType.value, "form-urlencoded") {
      forall pairs: Pairs
        ensures ParsedBody(ForwardedType(contentType, EncodeBody(pairs)), EncodeBody(pairs)) == MapOf(pairs)
      {
        BodyReadsBack(pairs);
        WrittenText(pairs);
        EmptyForm();
        NoPairs();
        if pairs != [] {
          assert DecodeLossy(EncodeBody(pairs))[0] == '{';
        }
      }
    } else {
      var pairs := [("a", "b")];
      WrittenText(pairs);
      SmallBody();
      NoFormIn("{" + "\"a\": \"b\"" + "}");
      MapOfMeans(pairs, "a");
      assert ("a", "b") in pairs;
      assert ParsedBody(ForwardedType(contentType, EncodeBody(pairs)), EncodeBody(pairs)) != MapOf(pairs);
    }
  }
}
