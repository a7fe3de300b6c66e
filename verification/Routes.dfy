/** Route paths and the keys they are compared under. */
module Routes {
  import opened Text

  const slash := (c: char) => c == '/'

  function NonEmpty(pieces: seq<string>): seq<string> {
    if pieces == [] then []
    else (if pieces[0] == "" then [] else [pieces[0]]) + NonEmpty(pieces[1..])
  }

  function Segments(path: string): seq<string> {
    NonEmpty(Split('/', TrimEnd(TrimStart(path, slash), slash)))
  }

  function Join(parts: seq<string>): string {
    if parts == [] then ""
    else if |parts| == 1 then parts[0]
    else Join(parts[..|parts| - 1]) + "/" + parts[|parts| - 1]
  }

  // ----- Normal form --------------------------------------------------------------------------------

  const PARAM := ":param"

  lemma ParamText()
    ensures PARAM == [':', 'p', 'a', 'r', 'a', 'm'] && PARAM != ""
    ensures IsParameter(PARAM) && !EndsInWhitespace(PARAM) && '/' !in PARAM
  {
    assert PARAM == [':', 'p', 'a', 'r', 'a', 'm'];
    assert PARAM[0] == ':' && PARAM[|PARAM| - 1] == 'm';
  }

  function LowerChar(c: char): char {
    if 'A' <= c <= 'Z' then 'a' + (c - 'A') else c
  }

  function Lower(s: string): string {
    seq(|s|, i requires 0 <= i < |s| => LowerChar(s[i]))
  }

  /** `:id`, `{id}` and `[id]` are the three ways to write a parameter. */
  predicate IsParameter(part: string) {
    part != "" && (part[0] == ':' || (part[0] == '{' && part[|part| - 1] == '}') || (part[0] == '[' && part[|part| - 1] == ']'))
  }

  function NormalPart(part: string): string {
    if IsParameter(part) then PARAM else Lower(part)
  }

  function NormalParts(parts: seq<string>): seq<string> {
    seq(|parts|, i requires 0 <= i < |parts| => NormalPart(parts[i]))
  }

  function NormalizePath(path: string): string {
    var trimmed := Trimmed(path);
    if trimmed == "/" then "/" else "/" + Join(NormalParts(Segments(trimmed)))
  }

  /** The first segment that is not a parameter. */
  function FirstPlain(segments: seq<string>): string {
    if segments == [] then "" else if segments[0] != PARAM then segments[0] else FirstPlain(segments[1..])
  }

  function Family(path: string): string {
    FirstPlain(Segments(NormalizePath(path)))
  }

  // ----- Splitting and joining ----------------------------------------------------------------------

  predicate Clean(parts: seq<string>) {
    forall part <- parts :: part != "" && '/' !in part
  }

  lemma {:induction false} NonEmptyJoins(a: seq<string>, b: seq<string>)
    ensures NonEmpty(a + b) == NonEmpty(a) + NonEmpty(b)
  {
    if a == [] {
      assert a + b == b;
    } else {
      assert (a + b)[1..] == a[1..] + b;
      NonEmptyJoins(a[1..], b);
    }
  }

  lemma {:induction false} SplitIsPlain(s: string)
    ensures forall piece <- Split('/', s) :: '/' !in piece
    ensures Clean(NonEmpty(Split('/', s)))
  {
    if s != "" {
      SplitIsPlain(s[1..]);
    }
    NonEmptyIsClean(Split('/', s));
  }

  lemma {:induction false} NonEmptyIsClean(pieces: seq<string>)
    requires forall piece <- pieces :: '/' !in piece
    ensures Clean(NonEmpty(pieces))
  {
    if pieces != [] {
      NonEmptyIsClean(pieces[1..]);
    }
  }

  lemma {:induction false} LeadingSlashes(s: string)
    ensures NonEmpty(Split('/', TrimStart(s, slash))) == NonEmpty(Split('/', s))
  {
    if s != "" && s[0] == '/' {
      LeadingSlashes(s[1..]);
    }
  }

  lemma {:induction false} TrailingSlashes(s: string)
    ensures NonEmpty(Split('/', TrimEnd(s, slash))) == NonEmpty(Split('/', s))
  {
    if s != "" && s[|s| - 1] == '/' {
      var init := s[..|s| - 1];
      TrailingSlashes(init);
      assert s == init + "/" + "";
      SplitAt('/', init, "");
      NonEmptyJoins(Split('/', init), [""]);
    }
  }

  /** Surrounding slashes add no segments. */
  lemma SegmentsArePieces(s: string)
    ensures Segments(s) == NonEmpty(Split('/', s))
    ensures Clean(Segments(s))
  {
    LeadingSlashes(s);
    TrailingSlashes(TrimStart(s, slash));
    SplitIsPlain(s);
  }

  /** A path built from clean segments has exactly these segments. */
  lemma {:induction false} SegmentsOfJoin(parts: seq<string>)
    requires Clean(parts)
    ensures Segments("/" + Join(parts)) == parts
  {
    var s := "/" + Join(parts);
    hide Segments, Split;
    SegmentsArePieces(s);
    SplitMark('/', Join(parts));
    NonEmptyJoins([""], Split('/', Join(parts)));
    EmptySplits('/');
    if |parts| == 1 {
      assert parts[0] in parts;
      SplitPlain('/', parts[0]);
    } else if |parts| > 1 {
      var init, last := parts[..|parts| - 1], parts[|parts| - 1];
      assert last in parts && parts == init + [last] && forall part <- init :: part in parts;
      SegmentsOfJoin(init);
      SegmentsArePieces("/" + Join(init));
      SplitMark('/', Join(init));
      NonEmptyJoins([""], Split('/', Join(init)));
      SplitAt('/', Join(init), last);
      SplitPlain('/', last);
      NonEmptyJoins(Split('/', Join(init)), [last]);
      assert NonEmpty([last]) == [last];
    }
  }

  lemma NormalPartsAreClean(parts: seq<string>)
    requires Clean(parts)
    ensures Clean(NormalParts(parts))
  {
    forall part | part in NormalParts(parts) ensures part != "" && '/' !in part {
      var i :| 0 <= i < |parts| && NormalPart(parts[i]) == part;
      assert parts[i] in parts;
      ParamText();
    }
  }

  function Normals(path: string): seq<string> {
    NormalParts(Segments(Trimmed(path)))
  }

  lemma NormalizeJoins(path: string)
    ensures NormalizePath(path) == "/" + Join(Normals(path))
    ensures Segments(NormalizePath(path)) == Normals(path) && Clean(Normals(path))
  {
    SegmentsArePieces(Trimmed(path));
    NormalPartsAreClean(Segments(Trimmed(path)));
    SegmentsOfJoin(Normals(path));
    if Trimmed(path) == "/" {
      SegmentsOfJoin([]);
      assert "/" == "/" + Join([]);
    }
  }

  /** The same segment, up to letter case and up to how, and under which name, a parameter is written. */
  predicate SamePart(a: string, b: string) {
    if IsParameter(a) || IsParameter(b) then IsParameter(a) && IsParameter(b) else Lower(a) == Lower(b)
  }

  lemma NormalPartExactly(a: string, b: string)
    ensures NormalPart(a) == NormalPart(b) <==> SamePart(a, b)
  {
    LowerKeepsKind(a);
    LowerKeepsKind(b);
  }

  lemma NormalPartsExactly(a: seq<string>, b: seq<string>)
    ensures NormalParts(a) == NormalParts(b) <==> |a| == |b| && forall i :: 0 <= i < |a| ==> SamePart(a[i], b[i])
  {
    hide NormalPart, SamePart;
    forall i | 0 <= i < |a| && i < |b| ensures NormalPart(a[i]) == NormalPart(b[i]) <==> SamePart(a[i], b[i]) {
      NormalPartExactly(a[i], b[i]);
    }
    if NormalParts(a) == NormalParts(b) {
      assert |NormalParts(a)| == |a| && |NormalParts(b)| == |b|;
      assert forall i :: 0 <= i < |a| ==> NormalPart(a[i]) == NormalParts(a)[i] == NormalParts(b)[i] == NormalPart(b[i]);
    }
  }

  /** Two paths share a normal form exactly when they have as many segments and these agree one by one. */
  lemma SameFormExactly(p: string, q: string)
    ensures NormalizePath(p) == NormalizePath(q) <==>
            var (a, b) := (Segments(Trimmed(p)), Segments(Trimmed(q)));
            |a| == |b| && forall i :: 0 <= i < |a| ==> SamePart(a[i], b[i])
  {
    hide NormalizePath, Segments, Trimmed, SamePart, NormalParts;
    SameNormals(p, q);
    NormalPartsExactly(Segments(Trimmed(p)), Segments(Trimmed(q)));
  }

  lemma LowerKeepsKind(part: string)
    ensures IsParameter(Lower(part)) == IsParameter(part)
    ensures Lower(Lower(part)) == Lower(part)
    ensures IsParameter(PARAM)
  {
    ParamText();
  }

  // ----- What a normal form says ------------------------------------------------------------------

  /** Only capital letters of the English alphabet change, each to its small letter. */
  ghost predicate InLowerCase(small: string, s: string) {
    |small| == |s| && forall i :: 0 <= i < |s| ==>
      small[i] as int == s[i] as int + if 0x41 <= s[i] as int <= 0x5A then 0x20 else 0
  }

  /** A colon and a name, or a name in braces or brackets. */
  ghost predicate NamesParameter(part: string) {
    exists name: string :: part == ":" + name || part == "{" + name + "}" || part == "[" + name + "]"
  }

  lemma ParameterExactly(part: string)
    ensures IsParameter(part) <==> NamesParameter(part)
  {
    if IsParameter(part) {
      if part[0] == ':' {
        assert part == ":" + part[1..];
      } else {
        assert |part| > 1;
        assert part == [part[0]] + part[1..|part| - 1] + [part[|part| - 1]];
      }
    }
  }

  lemma NormalPartIs(part: string)
    ensures if NamesParameter(part) then NormalPart(part) == ":param" else InLowerCase(NormalPart(part), part)
  {
    ParameterExactly(part);
  }

  /** The normal form is the path's segments behind slashes, parameters all alike and everything else in lower case; its
      family is the first segment that is no parameter, or nothing. */
  lemma NormalFormIs(path: string)
    ensures var (segments, q) := (Segments(Trimmed(path)), Normals(path));
            && NormalizePath(path) == "/" + Join(q) && |q| == |segments|
            && (forall i :: 0 <= i < |q| ==>
                  if NamesParameter(segments[i]) then q[i] == ":param" else InLowerCase(q[i], segments[i]))
            && (forall i :: 0 <= i < |q| && !NamesParameter(segments[i]) && (forall j :: 0 <= j < i ==> NamesParameter(segments[j]))
                  ==> Family(path) == q[i])
            && ((forall i :: 0 <= i < |q| ==> NamesParameter(segments[i])) ==> Family(path) == "")
  {
    hide Segments, Trimmed, Join, NormalPart, NamesParameter, InLowerCase, NormalizePath;
    var segments, q := Segments(Trimmed(path)), Normals(path);
    NormalizeJoins(path);
    forall i | 0 <= i < |q|
      ensures if NamesParameter(segments[i]) then q[i] == ":param" else InLowerCase(q[i], segments[i])
      ensures q[i] == PARAM <==> NamesParameter(segments[i])
    {
      NormalPartIs(segments[i]);
      ParamIsParameter(segments[i]);
    }
    FirstPlainIs(q);
  }

  lemma ParamIsParameter(part: string)
    ensures NormalPart(part) == PARAM <==> NamesParameter(part)
  {
    ParameterExactly(part);
    LowerKeepsKind(part);
  }

  lemma {:induction false} FirstPlainIs(q: seq<string>)
    ensures forall i :: 0 <= i < |q| && q[i] != PARAM && (forall j :: 0 <= j < i ==> q[j] == PARAM) ==> FirstPlain(q) == q[i]
    ensures (forall i :: 0 <= i < |q| ==> q[i] == PARAM) ==> FirstPlain(q) == ""
  {
    if q != [] {
      FirstPlainIs(q[1..]);
      forall i | 0 < i < |q| && q[i] != PARAM && forall j :: 0 <= j < i ==> q[j] == PARAM ensures FirstPlain(q) == q[i] {
        assert q[1..][i - 1] == q[i] && forall j :: 0 <= j < i - 1 ==> q[1..][j] == q[j + 1];
      }
    }
  }

  // ----- Normalising twice ----------------------------------------------------------------------------

  predicate EndsInWhitespace(s: string) {
    s != "" && IsWhitespace(s[|s| - 1])
  }

  lemma {:induction false} TrimEndAfter(a: string, c: char, b: string)
    requires !IsWhitespace(c)
    ensures TrimEnd(a + [c] + b, whitespace) == a + [c] + TrimEnd(b, whitespace)
    decreases |b|
  {
    if b != "" {
      assert (a + [c] + b)[..|a + [c] + b| - 1] == a + [c] + b[..|b| - 1];
      if EndsInWhitespace(b) {
        TrimEndAfter(a, c, b[..|b| - 1]);
      }
    }
  }

  lemma {:induction false} TrimEndStops(s: string)
    ensures !EndsInWhitespace(TrimEnd(s, whitespace)) && TrimEnd(s, whitespace) <= s
    ensures TrimEnd(s, whitespace) == s <==> !EndsInWhitespace(s)
  {
    if EndsInWhitespace(s) {
      TrimEndStops(s[..|s| - 1]);
    }
  }

  lemma NormalEnd(part: string)
    ensures EndsInWhitespace(NormalPart(part)) <==> !IsParameter(part) && EndsInWhitespace(part)
    ensures NormalPart(NormalPart(part)) == NormalPart(part)
  {
    LowerKeepsKind(part);
    ParamText();
  }

  /** Everything before the last segment of a joined path. */
  function Before(init: seq<string>): string {
    if init == [] then "" else "/" + Join(init)
  }

  lemma JoinEnds(init: seq<string>, last: string)
    ensures "/" + Join(init + [last]) == Before(init) + "/" + last
  {
    assert (init + [last])[..|init|] == init;
  }

  lemma TrimmedJoin(init: seq<string>, last: string)
    ensures Trimmed("/" + Join(init + [last])) == Before(init) + "/" + TrimEnd(last, whitespace)
  {
    hide Join, TrimEnd;
    var s, x := "/" + Join(init + [last]), Before(init);
    JoinEnds(init, last);
    assert !IsWhitespace('/') && s[0] == '/';
    assert x + "/" == x + ['/'];
    TrimEndAfter(x, '/', last);
  }

  lemma SegmentsOfEnd(init: seq<string>, rest: string)
    requires Clean(init) && '/' !in rest
    ensures Segments(Before(init) + "/" + rest) == init + (if rest == "" then [] else [rest])
  {
    hide Segments, Split, Join;
    var x := Before(init);
    SegmentsArePieces(x + "/" + rest);
    SplitAt('/', x, rest);
    SplitPlain('/', rest);
    NonEmptyJoins(Split('/', x), [rest]);
    SegmentsArePieces(x);
    if init == [] {
      EmptySplits('/');
    } else {
      SegmentsOfJoin(init);
    }
  }

  /** The segments left when a normal form is normalised again: only the last one can lose something. */
  lemma SecondTime(init: seq<string>, last: string)
    requires Clean(init + [last])
    ensures var rest := TrimEnd(last, whitespace);
            Segments(Trimmed("/" + Join(init + [last]))) == init + (if rest == "" then [] else [rest])
  {
    hide Segments, Join, TrimEnd, Trimmed, Before;
    TrimmedJoin(init, last);
    TrimEndStops(last);
    assert last in init + [last] && forall part <- init :: part in init + [last];
    SegmentsOfEnd(init, TrimEnd(last, whitespace));
  }

  lemma SameNormals(p: string, q: string)
    ensures NormalizePath(p) == NormalizePath(q) <==> Normals(p) == Normals(q)
  {
    hide NormalizePath, Normals, Segments, Join;
    NormalizeJoins(p);
    NormalizeJoins(q);
  }

  lemma NormalPartsTwice(parts: seq<string>)
    ensures NormalParts(NormalParts(parts)) == NormalParts(parts)
  {
    forall i | 0 <= i < |parts| ensures NormalPart(NormalPart(parts[i])) == NormalPart(parts[i]) {
      NormalEnd(parts[i]);
    }
  }

  lemma NormalsAgain(path: string)
    requires Normals(path) != []
    ensures var q := Normals(path);
            var (init, rest) := (q[..|q| - 1], TrimEnd(q[|q| - 1], whitespace));
            Normals(NormalizePath(path)) == init + (if rest == "" then [] else [NormalPart(rest)])
  {
    hide Segments, Join, TrimEnd, NormalPart, Trimmed, NormalizePath;
    var q := Normals(path);
    var init, last := q[..|q| - 1], q[|q| - 1];
    assert q == init + [last];
    NormalizeJoins(path);
    SecondTime(init, last);
    NormalPartsTwice(Segments(Trimmed(path)));
    assert NormalParts(q) == q;
    assert forall i :: 0 <= i < |init| ==> NormalPart(init[i]) == NormalParts(q)[i];
  }

  /** Normalising twice is the same as normalising once exactly when the last segment is a parameter or does
      not end in white space. */
  lemma NormalizeTwiceExactly(path: string)
    ensures var segments := Segments(Trimmed(path));
            NormalizePath(NormalizePath(path)) == NormalizePath(path) <==>
            segments == [] || IsParameter(segments[|segments| - 1]) || !EndsInWhitespace(segments[|segments| - 1])
  {
    hide Segments, Join, TrimEnd, NormalPart, NormalParts, Trimmed, NormalizePath, IsParameter, EndsInWhitespace, Normals;
    var segments, q := Segments(Trimmed(path)), Normals(path);
    SameNormals(NormalizePath(path), path);
    LastNormal(path);
    if q == [] {
      SlashIsRoot(path);
    } else {
      var last := q[|q| - 1];
      NormalsAgain(path);
      NormalEnd(segments[|segments| - 1]);
      var rest, again := TrimEnd(last, whitespace), Normals(NormalizePath(path));
      TrimEndStops(last);
      NormalEnd(rest);
      assert q == q[..|q| - 1] + [last];
      if again == q {
        assert again[|q| - 1] == NormalPart(rest);
      }
    }
  }

  lemma LastNormal(path: string)
    ensures var (segments, q) := (Segments(Trimmed(path)), Normals(path));
            |q| == |segments| && (q != [] ==> q[|q| - 1] == NormalPart(segments[|segments| - 1]) && q[|q| - 1] != "")
  {
    hide Segments, Trimmed, NormalPart;
    NormalizeJoins(path);
    var q := Normals(path);
    if q != [] {
      assert q[|q| - 1] in q;
    }
  }

  lemma SlashIsRoot(path: string)
    requires Normals(path) == []
    ensures Normals(NormalizePath(path)) == []
  {
    NormalizeJoins(path);
    SegmentsOfJoin([]);
    assert Trimmed("/") == "/";
    assert NormalizePath(path) == "/" == "/" + Join([]);
  }

  lemma {:induction false} PlainIsTrimmed(s: string)
    requires forall c <- s :: !IsWhitespace(c)
    ensures Trimmed(s) == s
  {
  }

  /** On paths without white space normalising is idempotent. */
  lemma PlainPathsAreStable(path: string)
    requires forall c <- path :: !IsWhitespace(c)
    ensures NormalizePath(NormalizePath(path)) == NormalizePath(path)
  {
    hide NormalizePath, Segments, Trimmed, Split, NonEmpty;
    NormalizeTwiceExactly(path);
    PlainIsTrimmed(path);
    SegmentsArePieces(path);
    SplitComesFrom(path);
    NonEmptyIsSome(Split('/', path));
    var segments := Segments(path);
    if segments != [] {
      var last := segments[|segments| - 1];
      assert last in segments && last in Split('/', path);
      assert last[|last| - 1] in last;
    }
  }

  lemma {:induction false} SplitComesFrom(s: string)
    ensures forall piece <- Split('/', s), c <- piece :: c in s
  {
    if s != "" {
      SplitComesFrom(s[1..]);
    }
  }

  lemma {:induction false} NonEmptyIsSome(pieces: seq<string>)
    ensures forall piece <- NonEmpty(pieces) :: piece in pieces
  {
    if pieces != [] {
      NonEmptyIsSome(pieces[1..]);
    }
  }

  /** With white space it is not: a blank hidden by a final slash is cut off the second time. */
  lemma BlankBeforeFinalSlash()
    ensures NormalizePath("/a /") == "/a " && NormalizePath("/a ") != "/a "
  {
    hide Segments, Split, Trimmed, NormalPart;
    TrimmedExample();
    SegmentsArePieces("/a /");
    SplitAt('/', "/a ", "");
    EmptySplits('/');
    SplitMark('/', "a ");
    SplitPlain('/', "a ");
    assert "/a /" == "/a " + "/" + "" && "/a " == "/" + "a ";
    assert Split('/', "/a /") == ["", "a ", ""];
    assert ["", "a ", ""] == ([""] + ["a "]) + [""];
    NonEmptyJoins([""] + ["a "], [""]);
    NonEmptyJoins([""], ["a "]);
    assert NonEmpty([""]) == [] && NonEmpty(["a "]) == ["a "];
    assert Segments("/a /") == ["a "];
    NormalizeTwiceExactly("/a /");
  }

  lemma TrimmedExample()
    ensures Trimmed("/a /") == "/a /" && NormalParts(["a "]) == ["a "]
    ensures !IsParameter("a ") && EndsInWhitespace("a ")
  {
    assert Lower("a ") == "a ";
  }
}
