/** How any text given to the percent-decoder is made up, and what the decoder makes of it. */
module PercentTexts {
  import opened Prelude
  import opened Text
  import opened Utf8
  import opened QueryString

  const DIGITS := "0123456789abcdef"
  const CAPITALS := "0123456789ABCDEF"

  /** A plus sign, an escape with digits in either case, or any other character. */
  datatype Piece = Plus | Escape(high: char, low: char) | Plain(c: char)

  ghost predicate IsHex(c: char) {
    c in DIGITS || c in CAPITALS
  }

  /** The value of a hexadecimal digit is its position among the sixteen. */
  ghost predicate HasValue(c: char, n: int) {
    0 <= n < 16 && (c == DIGITS[n] || c == CAPITALS[n])
  }

  function PieceText(p: Piece): string {
    match p case Plus => "+" case Escape(high, low) => ['%', high, low] case Plain(c) => [c]
  }

  function WholeText(pieces: seq<Piece>): string {
    if pieces == [] then "" else PieceText(pieces[0]) + WholeText(pieces[1..])
  }

  /** A percent sign stands for itself only where no two digits follow it, and a plus sign never does. */
  ghost predicate WellMade(pieces: seq<Piece>) {
    pieces == [] ||
    (&& WellMade(pieces[1..])
     && match pieces[0]
        case Plus => true
        case Escape(high, low) => IsHex(high) && IsHex(low)
        case Plain(c) =>
          c != '+' &&
          (c == '%' ==> var rest := WholeText(pieces[1..]); !(|rest| >= 2 && IsHex(rest[0]) && IsHex(rest[1]))))
  }

  /** A plus sign says a blank, an escape the byte it names, and a character its own bytes. */
  ghost predicate Says(p: Piece, bytes: seq<byte>) {
    match p
    case Plus => bytes == [0x20]
    case Escape(high, low) => |bytes| == 1 && exists h, l :: HasValue(high, h) && HasValue(low, l) && bytes[0] == h * 16 + l
    case Plain(c) => bytes == EncodeChar(c)
  }

  ghost predicate AllSay(pieces: seq<Piece>, bytes: seq<byte>) {
    if pieces == [] then bytes == []
    else exists k :: 0 <= k <= |bytes| && Says(pieces[0], bytes[..k]) && AllSay(pieces[1..], bytes[k..])
  }

  // ----- Digits -------------------------------------------------------------------------------------

  lemma DigitExactly(c: char)
    requires c as int < 256
    ensures HexDigit(c as int).Some? <==> IsHex(c)
    ensures forall n :: HasValue(c, n) <==> HexDigit(c as int) == Some(n)
  {
    forall n ensures HasValue(c, n) <==> HexDigit(c as int) == Some(n) {
      if 0 <= n < 16 {
        DigitAt(n);
      }
    }
    hide HexDigit;
    if HexDigit(c as int).Some? {
      var n := HexDigit(c as int).value;
      assert HasValue(c, n);
      assert DIGITS[n] in DIGITS && CAPITALS[n] in CAPITALS;
    }
    if IsHex(c) {
      HexHasValue(c);
    }
  }

  lemma HexHasValue(c: char)
    requires IsHex(c)
    ensures exists n :: HasValue(c, n)
  {
    if c in DIGITS {
      var n :| 0 <= n < |DIGITS| && DIGITS[n] == c;
      assert HasValue(c, n);
    } else {
      var n :| 0 <= n < |CAPITALS| && CAPITALS[n] == c;
      assert HasValue(c, n);
    }
  }

  lemma DigitAt(n: nat)
    requires n < 16
    ensures DIGITS[n] as int == if n < 10 then '0' as int + n else 'a' as int + (n - 10)
    ensures CAPITALS[n] as int == if n < 10 then '0' as int + n else 'A' as int + (n - 10)
  {
  }

  // ----- Bytes --------------------------------------------------------------------------------------

  lemma EncodeFirst(c: char, s: string)
    ensures Encode([c] + s) == EncodeChar(c) + Encode(s)
  {
    assert ([c] + s)[1..] == s;
  }

  lemma PlusFirst(c: char, s: string)
    ensures PlusToSpace([c] + s) == [if c == '+' then ' ' else c] + PlusToSpace(s)
  {
  }

  /** What the decoder reads of a text. */
  function Bytes(s: string): seq<byte> {
    Encode(PlusToSpace(s))
  }

  lemma BytesFirst(c: char, s: string)
    ensures Bytes([c] + s) == EncodeChar(if c == '+' then ' ' else c) + Bytes(s)
  {
    hide EncodeChar;
    PlusFirst(c, s);
    EncodeFirst(if c == '+' then ' ' else c, PlusToSpace(s));
  }

  lemma NoBytes()
    ensures Bytes("") == []
  {
  }

  /** The bytes of a text start with a digit exactly when the text does. */
  lemma DigitsShow(s: string)
    ensures s == "" ==> Bytes(s) == []
    ensures s != "" ==> Bytes(s) != [] && (HexDigit(Bytes(s)[0]).Some? <==> IsHex(s[0]))
    ensures s != "" && IsHex(s[0]) ==> Bytes(s)[0] == s[0] as int && Bytes(s)[1..] == Bytes(s[1..])
  {
    NoBytes();
    if s != "" {
      assert s == [s[0]] + s[1..];
      BytesFirst(s[0], s[1..]);
      FirstByte(if s[0] == '+' then ' ' else s[0]);
      assert !IsHex('+') && !IsHex(' ') by { DigitExactly('+'); DigitExactly(' '); }
    }
  }

  lemma FirstByte(c: char)
    ensures HexDigit(EncodeChar(c)[0]).Some? <==> IsHex(c)
    ensures IsHex(c) ==> EncodeChar(c) == [c as int]
  {
    if c as int < 0x80 {
      DigitExactly(c);
    } else {
      assert EncodeChar(c)[0] >= 0xC0;
      NoHex(c);
    }
  }

  lemma NoHex(c: char)
    requires c as int >= 0x80
    ensures !IsHex(c)
  {
    if c in DIGITS {
      var n :| 0 <= n < |DIGITS| && DIGITS[n] == c;
      DigitAt(n);
    }
    if c in CAPITALS {
      var n :| 0 <= n < |CAPITALS| && CAPITALS[n] == c;
      DigitAt(n);
    }
  }

  /** Bytes that start no escape are taken as they are. */
  lemma RawByte(b: byte, more: seq<byte>)
    requires b == '%' as int ==> !(|more| >= 2 && HexDigit(more[0]).Some? && HexDigit(more[1]).Some?)
    ensures DecodeBytes([b] + more) == [b] + DecodeBytes(more)
  {
    hide HexDigit;
    assert ([b] + more)[1..] == more;
  }

  lemma {:induction false} RawBytes(bytes: seq<byte>, more: seq<byte>)
    requires forall b <- bytes :: b != '%' as int
    ensures DecodeBytes(bytes + more) == bytes + DecodeBytes(more)
  {
    hide DecodeBytes;
    if bytes == [] {
      assert bytes + more == more && bytes + DecodeBytes(more) == DecodeBytes(more);
    } else {
      assert bytes[0] in bytes && forall b <- bytes[1..] :: b in bytes;
      RawByte(bytes[0], bytes[1..] + more);
      RawBytes(bytes[1..], more);
      assert bytes + more == [bytes[0]] + (bytes[1..] + more);
      assert bytes + DecodeBytes(more) == [bytes[0]] + (bytes[1..] + DecodeBytes(more));
    }
  }

  lemma NoPercentIn(c: char)
    requires c != '%'
    ensures forall b <- EncodeChar(c) :: b != '%' as int
  {
  }

  // ----- Decoding -----------------------------------------------------------------------------------

  lemma EscapeBytes(a: byte, b: byte, h: nat, l: nat, more: seq<byte>)
    requires HexDigit(a) == Some(h) && HexDigit(b) == Some(l)
    ensures h * 16 + l < 256 && DecodeBytes(['%' as int, a, b] + more) == [h * 16 + l] + DecodeBytes(more)
  {
    hide HexDigit;
    var whole := ['%' as int, a, b] + more;
    assert whole[3..] == more && whole[1] == a && whole[2] == b;
  }

  lemma EscapeDecodes(high: char, low: char, h: nat, l: nat, rest: string)
    requires HasValue(high, h) && HasValue(low, l)
    ensures DecodeBytes(Bytes(['%', high, low] + rest)) == [h * 16 + l] + DecodeBytes(Bytes(rest))
  {
    hide HexDigit, Bytes, DecodeBytes;
    assert IsHex(high) && IsHex(low);
    FirstByte(high);
    FirstByte(low);
    NotPlus(high);
    NotPlus(low);
    DigitExactly(high);
    DigitExactly(low);
    BytesFirst('%', [high] + ([low] + rest));
    BytesFirst(high, [low] + rest);
    BytesFirst(low, rest);
    assert EncodeChar('%') == ['%' as int];
    assert ['%', high, low] + rest == ['%'] + ([high] + ([low] + rest));
    var a: byte, b: byte := high as int, low as int;
    assert Bytes(['%', high, low] + rest) == ['%' as int, a, b] + Bytes(rest);
    EscapeBytes(a, b, h, l, Bytes(rest));
  }

  lemma NotPlus(c: char)
    requires IsHex(c)
    ensures c != '+' && c as int < 128
  {
    FirstByte(c);
    DigitExactly('+');
  }

  /** Whatever is well made is decoded to what it says. */
  lemma {:induction false} WellMadeDecodes(pieces: seq<Piece>)
    requires WellMade(pieces)
    ensures AllSay(pieces, DecodeBytes(Bytes(WholeText(pieces))))
  {
    hide DecodeBytes, Bytes, EncodeChar, HexDigit, IsHex;
    if pieces == [] {
      NoBytes();
      NothingToDecode();
    } else {
      var (p, rest) := (pieces[0], WholeText(pieces[1..]));
      WellMadeDecodes(pieces[1..]);
      var more := DecodeBytes(Bytes(rest));
      var said := PieceDecodes(p, rest);
      var all := said + more;
      assert all[..|said|] == said && all[|said|..] == more;
      assert Says(p, all[..|said|]) && AllSay(pieces[1..], all[|said|..]);
    }
  }

  lemma ValueOf(c: char) returns (n: nat)
    requires IsHex(c)
    ensures HasValue(c, n)
  {
    NotPlus(c);
    DigitExactly(c);
    n := HexDigit(c as int).value;
  }

  lemma PieceDecodes(p: Piece, rest: string) returns (said: seq<byte>)
    requires match p
             case Plus => true
             case Escape(high, low) => IsHex(high) && IsHex(low)
             case Plain(c) => c != '+' && (c == '%' ==> !(|rest| >= 2 && IsHex(rest[0]) && IsHex(rest[1])))
    ensures Says(p, said) && DecodeBytes(Bytes(PieceText(p) + rest)) == said + DecodeBytes(Bytes(rest))
  {
    hide DecodeBytes, HexDigit, IsHex, Bytes;
    match p {
      case Plus =>
        said := [0x20];
        BytesFirst('+', rest);
        RawByte(0x20, Bytes(rest));
      case Escape(high, low) =>
        var h := ValueOf(high);
        var l := ValueOf(low);
        EscapeDecodes(high, low, h, l, rest);
        said := [h * 16 + l];
      case Plain(c) =>
        said := EncodeChar(c);
        BytesFirst(c, rest);
        if c == '%' {
          PercentAlone(rest);
          assert EncodeChar('%') == ['%' as int];
          RawByte('%' as int, Bytes(rest));
        } else {
          NoPercentIn(c);
          RawBytes(EncodeChar(c), Bytes(rest));
        }
    }
  }

  lemma PercentAlone(rest: string)
    requires !(|rest| >= 2 && IsHex(rest[0]) && IsHex(rest[1]))
    ensures var more := Bytes(rest); !(|more| >= 2 && HexDigit(more[0]).Some? && HexDigit(more[1]).Some?)
  {
    hide IsHex, HexDigit, Bytes;
    DigitsShow(rest);
    if rest != "" && IsHex(rest[0]) {
      DigitsShow(rest[1..]);
      assert |Bytes(rest)| >= 2 ==> Bytes(rest)[1] == Bytes(rest)[1..][0];
    }
  }

  // ----- Every text ---------------------------------------------------------------------------------

  lemma {:induction false} EveryTextIsWellMade(s: string) returns (pieces: seq<Piece>)
    ensures WellMade(pieces) && WholeText(pieces) == s
    decreases |s|
  {
    hide IsHex;
    if s == "" {
      pieces := [];
    } else if |s| > 2 && s[0] == '%' && IsHex(s[1]) && IsHex(s[2]) {
      var rest := EveryTextIsWellMade(s[3..]);
      pieces := [Escape(s[1], s[2])] + rest;
      assert pieces[1..] == rest && s == ['%', s[1], s[2]] + s[3..];
    } else {
      var rest := EveryTextIsWellMade(s[1..]);
      pieces := [if s[0] == '+' then Plus else Plain(s[0])] + rest;
      assert pieces[1..] == rest && s == [s[0]] + s[1..];
    }
  }

  lemma {:induction false} SaidOnce(pieces: seq<Piece>, a: seq<byte>, b: seq<byte>)
    requires AllSay(pieces, a) && AllSay(pieces, b)
    ensures a == b
  {
    hide EncodeChar, Says;
    if pieces != [] {
      var k :| 0 <= k <= |a| && Says(pieces[0], a[..k]) && AllSay(pieces[1..], a[k..]);
      var l :| 0 <= l <= |b| && Says(pieces[0], b[..l]) && AllSay(pieces[1..], b[l..]);
      SaysOnce(pieces[0], a[..k], b[..l]);
      SaidOnce(pieces[1..], a[k..], b[l..]);
      assert a == a[..k] + a[k..] && b == b[..l] + b[l..];
    }
  }

  lemma SaysOnce(p: Piece, a: seq<byte>, b: seq<byte>)
    requires Says(p, a) && Says(p, b)
    ensures a == b
  {
    hide HasValue, EncodeChar;
    if p.Escape? {
      var h, l :| HasValue(p.high, h) && HasValue(p.low, l) && a[0] == h * 16 + l;
      var i, j :| HasValue(p.high, i) && HasValue(p.low, j) && b[0] == i * 16 + j;
      ValueOnce(p.high, h, i);
      ValueOnce(p.low, l, j);
    }
  }

  lemma ValueOnce(c: char, m: int, n: int)
    requires HasValue(c, m) && HasValue(c, n)
    ensures m == n
  {
    DigitAt(m);
    DigitAt(n);
  }

  /** Any text decodes to the text of the bytes its pieces say. */
  lemma DecodedExactly(input: string, text: string)
    ensures PercentDecoded(input) == text <==>
            exists pieces, bytes :: WellMade(pieces) && WholeText(pieces) == input && AllSay(pieces, bytes) && DecodeLossy(bytes) == text
  {
    hide WellMade, WholeText, AllSay, DecodeBytes, DecodeLossy, Encode, PlusToSpace;
    assert PercentDecoded(input) == DecodeLossy(DecodeBytes(Bytes(input)));
    var found := EveryTextIsWellMade(input);
    WellMadeDecodes(found);
    if pieces, bytes :| WellMade(pieces) && WholeText(pieces) == input && AllSay(pieces, bytes) && DecodeLossy(bytes) == text {
      WellMadeDecodes(pieces);
      SaidOnce(pieces, bytes, DecodeBytes(Bytes(input)));
    }
  }

  const MARKS := "-_.~/:"

  /** The encoder writes letters, figures and six marks as they are, and every other byte as its two digits in capitals. */
  lemma ByteIsWritten(b: byte)
    ensures var c := b as char;
            EncodeByte(b) ==
            if 'A' <= c <= 'Z' || 'a' <= c <= 'z' || '0' <= c <= '9' || c in MARKS then [c]
            else ['%', CAPITALS[b / 16], CAPITALS[b % 16]]
  {
    DigitAt(b / 16);
    DigitAt(b % 16);
    assert MARKS == ['-', '_', '.', '~', '/', ':'];
  }

  // ----- Forms --------------------------------------------------------------------------------------

  /** A part of a form, with or without an equals sign. */
  datatype FormPart = Bare(text: string) | Named(name: string, value: string)

  function PartText(p: FormPart): string {
    match p case Bare(text) => text case Named(name, value) => name + ['='] + value
  }

  function FormText(parts: seq<FormPart>): string
    requires parts != []
  {
    if |parts| == 1 then PartText(parts[0]) else PartText(parts[0]) + ['&'] + FormText(parts[1..])
  }

  ghost predicate IsPart(p: FormPart) {
    && '&' !in PartText(p)
    && match p case Bare(text) => '=' !in text case Named(name, _) => '=' !in name
  }

  /** Parts without an equals sign are passed over. */
  function FormFields(parts: seq<FormPart>): Pairs {
    if parts == [] then []
    else (if parts[0].Named? then [(PercentDecoded(parts[0].name), PercentDecoded(parts[0].value))] else []) + FormFields(parts[1..])
  }

  lemma PartIsRead(p: FormPart)
    requires IsPart(p)
    ensures FormPairs([PartText(p)]) == FormFields([p])
  {
    hide PercentDecoded;
    assert FormPairs([]) == [] && [PartText(p)][1..] == [] && [p][1..] == [];
    match p {
      case Bare(text) =>
      case Named(name, value) =>
        SplitOnceIs(name, '=', value);
        assert PartText(p)[|name|] == '=' && '=' in PartText(p);
    }
  }

  lemma {:induction false} FormIsRead(parts: seq<FormPart>)
    requires parts != [] && forall p <- parts :: IsPart(p)
    ensures FormPairs(Split('&', FormText(parts))) == FormFields(parts)
  {
    hide PercentDecoded, Split, FormPairs, PartText;
    var p := parts[0];
    PartIsRead(p);
    SplitPlain('&', PartText(p));
    if |parts| == 1 {
      assert parts == [p];
    } else {
      FormIsRead(parts[1..]);
      SplitAt('&', PartText(p), FormText(parts[1..]));
      FormPairsJoin([PartText(p)], Split('&', FormText(parts[1..])));
      assert FormFields(parts) == FormFields([p]) + FormFields(parts[1..]) by { assert [p][1..] == []; }
    }
  }

  lemma {:induction false} EveryTextIsAForm(s: string) returns (parts: seq<FormPart>)
    ensures parts != [] && (forall p <- parts :: IsPart(p)) && FormText(parts) == s
    decreases |s|
  {
    var cut := SplitOnce(s, '&');
    var first := if cut.Some? then cut.value.0 else s;
    var part := match SplitOnce(first, '=') case None => Bare(first) case Some((name, value)) => Named(name, value);
    if cut.None? {
      parts := [part];
    } else {
      var rest := EveryTextIsAForm(cut.value.1);
      parts := [part] + rest;
      assert parts[1..] == rest;
    }
  }

  /** A form says of each name what the last of its parts with that name says. */
  lemma FormExactly(input: string, m: map<string, string>)
    ensures ParseForm(input) == m <==>
            exists parts :: parts != [] && (forall p <- parts :: IsPart(p)) && FormText(parts) == input && LastListed(FormFields(parts), m)
  {
    hide IsPart, FormText, FormFields, FormPairs, Split, MapOf, LastListed;
    var found := EveryTextIsAForm(input);
    FormIsRead(found);
    CollectedIsLastListed(FormFields(found));
    if parts :| parts != [] && (forall p <- parts :: IsPart(p)) && FormText(parts) == input && LastListed(FormFields(parts), m) {
      FormIsRead(parts);
      CollectedIsLastListed(FormFields(parts));
      LastListedIsOne(FormFields(parts), m, ParseForm(input));
    }
  }
}
