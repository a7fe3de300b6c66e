/** How the proxy writes a path and its query, and how the server reads them. */
module QueryString {
  import opened Prelude
  import opened Text
  import opened Utf8

  type Pairs = seq<(string, string)>

  /** A later value under the same name takes the place of an earlier one. */
  function MapOf(pairs: Pairs): map<string, string> {
    if pairs == [] then map[] else MapOf(pairs[..|pairs| - 1])[pairs[|pairs| - 1].0 := pairs[|pairs| - 1].1]
  }

  // ----- Percent-encoding (section 2.1 of RFC 3986) -------------------------------------------------

  predicate IsPlain(b: byte) {
    'A' as int <= b <= 'Z' as int || 'a' as int <= b <= 'z' as int || '0' as int <= b <= '9' as int
    || b == '-' as int || b == '_' as int || b == '.' as int || b == '~' as int || b == '/' as int || b == ':' as int
  }

  function HexChar(n: nat): char
    requires n < 16
  {
    if n < 10 then '0' + n as char else 'A' + (n - 10) as char
  }

  function EncodeByte(b: byte): string {
    if IsPlain(b) then [b as char] else ['%', HexChar(b / 16), HexChar(b % 16)]
  }

  function EncodeBytes(bytes: seq<byte>): string {
    if bytes == [] then "" else EncodeByte(bytes[0]) + EncodeBytes(bytes[1..])
  }

  function PercentEncode(value: string): string {
    EncodeBytes(Encode(value))
  }

  function HexDigit(b: byte): (r: Option<nat>)
    ensures r.Some? ==> r.value < 16
  {
    if '0' as int <= b <= '9' as int then Some(b - '0' as int)
    else if 'A' as int <= b <= 'F' as int then Some(b - 'A' as int + 10)
    else if 'a' as int <= b <= 'f' as int then Some(b - 'a' as int + 10)
    else None
  }

  /** The byte written at the front, and how much text it takes: three bytes for an escape, else one. */
  function FrontByte(bytes: seq<byte>): (byte, nat)
    requires bytes != []
  {
    if bytes[0] == '%' as int && |bytes| > 2 && HexDigit(bytes[1]).Some? && HexDigit(bytes[2]).Some?
    then (HexDigit(bytes[1]).value * 16 + HexDigit(bytes[2]).value, 3)
    else (bytes[0], 1)
  }

  function DecodeBytes(bytes: seq<byte>): seq<byte> {
    if bytes == [] then []
    else
      var (b, size) := FrontByte(bytes);
      [b] + DecodeBytes(bytes[size..])
  }

  function PlusToSpace(s: string): string {
    seq(|s|, i requires 0 <= i < |s| => if s[i] == '+' then ' ' else s[i])
  }

  function PercentDecoded(input: string): string {
    DecodeLossy(DecodeBytes(Encode(PlusToSpace(input))))
  }

  lemma DecodeStep(out: seq<byte>, bytes: seq<byte>)
    requires bytes != []
    ensures out + DecodeBytes(bytes) == out + [FrontByte(bytes).0] + DecodeBytes(bytes[FrontByte(bytes).1..])
  {
  }

  method PercentDecode(input: string) returns (r: string)
    ensures r == PercentDecoded(input)
  {
    hide DecodeBytes, Encode;
    var bytes := Encode(PlusToSpace(input));
    var out: seq<byte> := [];
    var index := 0;
    while index < |bytes|
      invariant index <= |bytes|
      invariant out + DecodeBytes(bytes[index..]) == DecodeBytes(bytes)
    {
      ghost var rest := bytes[index..];
      DecodeStep(out, rest);
      assert rest[1..] == bytes[index + 1..] && (|rest| >= 3 ==> rest[3..] == bytes[index + 3..]);
      if bytes[index] == '%' as int && index + 2 < |bytes| {
        var high, low := HexDigit(bytes[index + 1]), HexDigit(bytes[index + 2]);
        if high.Some? && low.Some? {
          out := out + [high.value * 16 + low.value];
          index := index + 3;
        } else {
          out := out + [bytes[index]];
          index := index + 1;
        }
      } else {
        out := out + [bytes[index]];
        index := index + 1;
      }
    }
    assert bytes[index..] == [];
    NothingToDecode();
    assert out + [] == out;
    r := DecodeLossy(out);
  }

  lemma NothingToDecode()
    ensures DecodeBytes([]) == []
  {
  }

  predicate IsEscaped(c: char) {
    c == '%' || (c as int < 128 && IsPlain(c as int))
  }

  lemma ByteReadsBack(b: byte, rest: seq<byte>)
    ensures Encode(EncodeByte(b)) + rest != []
    ensures FrontByte(Encode(EncodeByte(b)) + rest) == (b, |Encode(EncodeByte(b))|)
    ensures forall c <- EncodeByte(b) :: IsEscaped(c)
  {
    if IsPlain(b) {
      assert Encode([b as char]) == [b];
    } else {
      var high, low := HexChar(b / 16), HexChar(b % 16);
      assert Encode(EncodeByte(b)) == ['%' as int, high as int, low as int] by { ThreeChars('%', high, low); }
    }
  }

  lemma ThreeChars(a: char, b: char, c: char)
    requires a as int < 128 && b as int < 128 && c as int < 128
    ensures Encode([a, b, c]) == [a as int, b as int, c as int]
  {
    EncodeJoins([a], [b, c]);
    EncodeJoins([b], [c]);
    assert [a, b, c] == [a] + [b, c] && [b, c] == [b] + [c];
    OneChar(a);
    OneChar(b);
    OneChar(c);
  }

  lemma OneChar(c: char)
    requires c as int < 128
    ensures Encode([c]) == [c as int]
  {
    assert [c][1..] == "" && Encode("") == [];
  }

  lemma {:induction false} BytesReadBack(bytes: seq<byte>)
    ensures DecodeBytes(Encode(EncodeBytes(bytes))) == bytes
    ensures forall c <- EncodeBytes(bytes) :: IsEscaped(c)
  {
    hide Encode, FrontByte, EncodeByte, IsEscaped;
    if bytes == [] {
      assert Encode("") == [] by { NothingToEncode(); }
    } else {
      var b, rest := bytes[0], Encode(EncodeBytes(bytes[1..]));
      BytesReadBack(bytes[1..]);
      EncodeJoins(EncodeByte(b), EncodeBytes(bytes[1..]));
      ByteReadsBack(b, rest);
      var whole := Encode(EncodeByte(b)) + rest;
      assert whole[|Encode(EncodeByte(b))|..] == rest;
      assert bytes == [b] + bytes[1..];
    }
  }

  lemma NothingToEncode()
    ensures Encode("") == []
  {
  }

  /** Percent-decoding undoes percent-encoding on every text. */
  lemma PercentRoundTrip(value: string)
    ensures PercentDecoded(PercentEncode(value)) == value
    ensures forall c <- PercentEncode(value) :: IsEscaped(c)
  {
    hide Encode, DecodeBytes, EncodeBytes, DecodeLossy;
    BytesReadBack(Encode(value));
    var text := PercentEncode(value);
    assert PlusToSpace(text) == text by {
      forall i | 0 <= i < |text| ensures text[i] != '+' {
        assert text[i] in text;
      }
    }
    TextDecodes(value, []);
    assert Encode(value) + [] == Encode(value) && value + "" == value;
    assert DecodeLossy([]) == "" by { NothingToRead(); }
  }

  lemma NothingToRead()
    ensures DecodeLossy([]) == ""
  {
  }

  // ----- Forms and targets --------------------------------------------------------------------------

  /** The texts before and after the first mark. */
  function SplitOnce(s: string, mark: char): (r: Option<(string, string)>)
    ensures r.Some? ==> s == r.value.0 + [mark] + r.value.1 && mark !in r.value.0
    ensures r.None? ==> mark !in s
  {
    if s == "" then None
    else if s[0] == mark then Some(("", s[1..]))
    else
      match SplitOnce(s[1..], mark)
      case None => None
      case Some((a, b)) => Some(([s[0]] + a, b))
  }

  function FormPairs(pieces: seq<string>): Pairs {
    if pieces == [] then []
    else
      var rest := FormPairs(pieces[1..]);
      if IsBlank(pieces[0]) then rest
      else
        match SplitOnce(pieces[0], '=')
        case None => rest
        case Some((name, value)) => [(PercentDecoded(name), PercentDecoded(value))] + rest
  }

  function ParseForm(input: string): map<string, string> {
    MapOf(FormPairs(Split('&', input)))
  }

  function SplitTarget(target: string): (string, map<string, string>) {
    match SplitOnce(target, '?')
    case None => (target, map[])
    case Some((path, query)) => (path, ParseForm(query))
  }

  function QueryPair(pair: (string, string)): string {
    PercentEncode(pair.0) + "=" + PercentEncode(pair.1)
  }

  function QueryText(pairs: Pairs): string {
    if pairs == [] then ""
    else if |pairs| == 1 then QueryPair(pairs[0])
    else QueryPair(pairs[0]) + "&" + QueryText(pairs[1..])
  }

  /** The pairs are those of the query map, in the order it is visited. */
  function Target(path: string, pairs: Pairs): string {
    if pairs == [] then path else path + "?" + QueryText(pairs)
  }

  lemma {:induction false} SplitOnceIs(a: string, mark: char, b: string)
    requires mark !in a
    ensures SplitOnce(a + [mark] + b, mark) == Some((a, b))
  {
    if a == "" {
      assert (a + [mark] + b)[1..] == b;
    } else {
      assert (a + [mark] + b)[1..] == a[1..] + [mark] + b && a == [a[0]] + a[1..];
      SplitOnceIs(a[1..], mark, b);
    }
  }

  lemma PairReadsBack(pair: (string, string))
    ensures FormPairs([QueryPair(pair)]) == [pair] && '&' !in QueryPair(pair)
  {
    hide PercentEncode, PercentDecoded;
    PercentRoundTrip(pair.0);
    PercentRoundTrip(pair.1);
    var text := QueryPair(pair);
    assert text == PercentEncode(pair.0) + ['='] + PercentEncode(pair.1);
    SplitOnceIs(PercentEncode(pair.0), '=', PercentEncode(pair.1));
    assert text[|PercentEncode(pair.0)|] == '=' && '=' in text;
  }

  lemma {:induction false} FormPairsJoin(a: seq<string>, b: seq<string>)
    ensures FormPairs(a + b) == FormPairs(a) + FormPairs(b)
  {
    hide PercentDecoded, IsBlank, SplitOnce;
    if a == [] {
      assert a + b == b;
    } else {
      assert (a + b)[1..] == a[1..] + b;
      FormPairsJoin(a[1..], b);
    }
  }

  lemma {:induction false} QueryReadsBack(pairs: Pairs)
    requires pairs != []
    ensures FormPairs(Split('&', QueryText(pairs))) == pairs
  {
    hide QueryPair, FormPairs, Split;
    PairReadsBack(pairs[0]);
    SplitPlain('&', QueryPair(pairs[0]));
    if |pairs| == 1 {
      assert pairs == [pairs[0]];
    } else {
      QueryReadsBack(pairs[1..]);
      SplitAt('&', QueryPair(pairs[0]), QueryText(pairs[1..]));
      FormPairsJoin([QueryPair(pairs[0])], Split('&', QueryText(pairs[1..])));
      assert QueryText(pairs) == QueryPair(pairs[0]) + ['&'] + QueryText(pairs[1..]);
      assert pairs == [pairs[0]] + pairs[1..];
    }
  }

  /** The server reads back the path and the query the proxy wrote, exactly when the path holds no question mark. */
  lemma TargetReadsBackExactly(path: string, pairs: Pairs)
    ensures SplitTarget(Target(path, pairs)) == (path, MapOf(pairs)) <==> '?' !in path
  {
    hide QueryText, FormPairs, Split, MapOf;
    var target := Target(path, pairs);
    if '?' !in path {
      if pairs == [] {
        assert MapOf([]) == map[] by { NoPairs(); }
      } else {
        SplitOnceIs(path, '?', QueryText(pairs));
        assert target == path + ['?'] + QueryText(pairs);
        QueryReadsBack(pairs);
      }
    } else {
      assert '?' in target;
    }
  }

  lemma NoPairs()
    ensures MapOf([]) == map[]
  {
  }

  /** The pairs of a map, in whatever order. */
  ghost predicate Lists(pairs: Pairs, m: map<string, string>) {
    && (forall p <- pairs :: p.0 in m && m[p.0] == p.1)
    && (forall name <- m :: (name, m[name]) in pairs)
  }

  lemma {:induction false} MapOfMeans(pairs: Pairs, name: string)
    ensures name in MapOf(pairs) <==> exists p <- pairs :: p.0 == name
    ensures name in MapOf(pairs) ==> (name, MapOf(pairs)[name]) in pairs
  {
    if pairs != [] {
      var init, last := pairs[..|pairs| - 1], pairs[|pairs| - 1];
      assert pairs == init + [last];
      MapOfMeans(init, name);
      if p :| p in pairs && p.0 == name {
        assert p in init || p == last;
      }
    }
  }

  /** Collecting the pairs of a map gives the map. */
  lemma ListedIsCollected(pairs: Pairs, m: map<string, string>)
    requires Lists(pairs, m)
    ensures MapOf(pairs) == m
  {
    forall name ensures name in MapOf(pairs) <==> name in m ensures name in m ==> MapOf(pairs)[name] == m[name] {
      MapOfMeans(pairs, name);
      if name in m {
        assert (name, m[name]) in pairs;
      }
    }
  }

  /** The last pair of its name. */
  ghost predicate IsLast(pairs: Pairs, i: int) {
    0 <= i < |pairs| && forall j :: i < j < |pairs| ==> pairs[j].0 != pairs[i].0
  }

  /** Each name has the value listed last under it. */
  ghost predicate LastListed(pairs: Pairs, m: map<string, string>) {
    && (forall name <- m :: exists i :: IsLast(pairs, i) && pairs[i].0 == name)
    && (forall i :: IsLast(pairs, i) ==> pairs[i].0 in m && m[pairs[i].0] == pairs[i].1)
  }

  lemma {:induction false} CollectedIsLastListed(pairs: Pairs)
    ensures LastListed(pairs, MapOf(pairs))
  {
    if pairs != [] {
      var init, last := pairs[..|pairs| - 1], pairs[|pairs| - 1];
      assert pairs == init + [last];
      CollectedIsLastListed(init);
      OneMoreListed(init, MapOf(init), last);
    }
  }

  lemma LastOfMore(init: Pairs, last: (string, string), i: nat)
    requires i <= |init|
    ensures IsLast(init + [last], i) <==> i == |init| || (IsLast(init, i) && init[i].0 != last.0)
  {
    var pairs := init + [last];
    assert pairs[|init|] == last;
    assert forall j :: 0 <= j < |init| ==> pairs[j] == init[j];
  }

  lemma OneMoreListed(init: Pairs, m: map<string, string>, last: (string, string))
    requires LastListed(init, m)
    ensures LastListed(init + [last], m[last.0 := last.1])
  {
    var pairs, n := init + [last], m[last.0 := last.1];
    forall name <- n ensures exists i :: IsLast(pairs, i) && pairs[i].0 == name {
      LastOfMore(init, last, |init|);
      if name == last.0 {
        assert IsLast(pairs, |init|) && pairs[|init|].0 == name;
      } else {
        var i :| IsLast(init, i) && init[i].0 == name;
        LastOfMore(init, last, i);
        assert IsLast(pairs, i) && pairs[i] == init[i];
      }
    }
    forall i | IsLast(pairs, i) ensures pairs[i].0 in n && n[pairs[i].0] == pairs[i].1 {
      LastOfMore(init, last, i);
      if i < |init| {
        assert pairs[i] == init[i] && IsLast(init, i);
      }
    }
  }

  lemma LastListedIsOne(pairs: Pairs, m: map<string, string>, n: map<string, string>)
    requires LastListed(pairs, m) && LastListed(pairs, n)
    ensures m == n
  {
    hide IsLast;
    assert m.Keys == n.Keys;
  }

  /** Every map can be listed. */
  lemma {:induction false} EveryMapIsListed(m: map<string, string>) returns (pairs: Pairs)
    ensures Lists(pairs, m)
    decreases |m|
  {
    if m == map[] {
      pairs := [];
    } else {
      var name :| name in m;
      var rest := m - {name};
      var listed := EveryMapIsListed(rest);
      pairs := listed + [(name, m[name])];
      assert pairs[|listed|] == (name, m[name]);
      forall other | other in m ensures (other, m[other]) in pairs {
        if other != name {
          assert (other, rest[other]) in listed;
        }
      }
    }
  }

  /** The same for every query map: it can be listed, and is read back from any of its listings. */
  lemma TargetCarriesMap(path: string, m: map<string, string>)
    ensures exists pairs :: Lists(pairs, m)
    ensures forall pairs :: Lists(pairs, m) ==> (SplitTarget(Target(path, pairs)) == (path, m) <==> '?' !in path)
  {
    hide Target, SplitTarget, MapOf, Lists;
    var some := EveryMapIsListed(m);
    forall pairs | Lists(pairs, m) ensures SplitTarget(Target(path, pairs)) == (path, m) <==> '?' !in path {
      ListedIsCollected(pairs, m);
      TargetReadsBackExactly(path, pairs);
    }
  }
}
