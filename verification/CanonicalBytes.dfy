/** When the canonical bytes decide the declaration. */
module CanonicalBytes {
  import opened Prelude
  import opened Text
  import opened Sorting
  import opened Utf8
  import opened Declaration
  import opened CanonicalText

  // ----- Telling pieces apart -----------------------------------------------------------------------

  predicate NoMoreWords(x: seq<Token>) {
    x != [] && x[0].1 != ','
  }

  lemma WordsHead(a: seq<string>, x: seq<Token>)
    requires NoMoreWords(x)
    ensures Words(a) + x != [] && ((Words(a) + x)[0].1 == ',' <==> a != [])
    ensures a != [] ==> (Words(a) + x)[0] == (a[0], ',') && (Words(a) + x)[1..] == Words(a[1..]) + x
    ensures a == [] ==> Words(a) + x == x
  {
  }

  lemma {:induction false} WordsCancel(a: seq<string>, b: seq<string>, x: seq<Token>, y: seq<Token>)
    requires NoMoreWords(x) && NoMoreWords(y) && Words(a) + x == Words(b) + y
    ensures a == b && x == y
  {
    hide Words;
    WordsHead(a, x);
    WordsHead(b, y);
    if a != [] {
      WordsCancel(a[1..], b[1..], x, y);
      assert a == [a[0]] + a[1..] && b == [b[0]] + b[1..];
    }
  }

  lemma KindHead(kind: ClaimKind, x: seq<Token>)
    ensures var s := KindTokens(kind) + x;
            && s != [] && s[0] == KindTokens(kind)[0]
            && (kind.EnumKind? ==> s[0] == ("enum", '[') && s[1..] == Words(kind.values) + ([("", ']'), ("", ';')] + x))
            && (!kind.EnumKind? ==> s[0].1 == ';' && s[1..] == x)
  {
    hide Words;
    if kind.EnumKind? {
      Regroup(("enum", '['), Words(kind.values), [("", ']'), ("", ';')], x);
    }
  }

  lemma KindNames(a: ClaimKind, b: ClaimKind)
    requires !a.EnumKind? && !b.EnumKind? && KindTokens(a)[0] == KindTokens(b)[0]
    ensures a == b
  {
    assert "string"[0] == 's' && "integer"[0] == 'i' && "boolean"[0] == 'b';
  }

  lemma KindCancel(a: ClaimKind, b: ClaimKind, x: seq<Token>, y: seq<Token>)
    requires KindTokens(a) + x == KindTokens(b) + y
    ensures a == b && x == y
  {
    hide KindTokens, Words;
    KindHead(a, x);
    KindHead(b, y);
    if a.EnumKind? {
      var end: seq<Token> := [("", ']'), ("", ';')];
      WordsCancel(a.values, b.values, end + x, end + y);
      assert (end + x)[2..] == x && (end + y)[2..] == y;
    } else {
      KindNames(a, b);
    }
  }

  predicate EndsClaims(x: seq<Token>) {
    x != [] && x[0].1 == '='
  }

  lemma ClaimsHead(a: seq<ClaimDef>, x: seq<Token>)
    requires EndsClaims(x)
    ensures var s := ClaimsTokens(a) + x;
            && s != [] && (s[0].1 == ':' <==> a != [])
            && (a != [] ==> s[0] == (a[0].name, ':') && s[1..] == KindTokens(a[0].kind) + (ClaimsTokens(a[1..]) + x))
            && (a == [] ==> s == x)
  {
    hide KindTokens;
    if a == [] {
      assert ClaimsTokens(a) + x == x;
    } else {
      Regroup((a[0].name, ':'), KindTokens(a[0].kind), ClaimsTokens(a[1..]), x);
    }
  }

  lemma {:induction false} ClaimsCancel(a: seq<ClaimDef>, b: seq<ClaimDef>, x: seq<Token>, y: seq<Token>)
    requires EndsClaims(x) && EndsClaims(y) && ClaimsTokens(a) + x == ClaimsTokens(b) + y
    ensures a == b && x == y
  {
    hide KindTokens, ClaimsTokens;
    ClaimsHead(a, x);
    ClaimsHead(b, y);
    if a != [] {
      KindCancel(a[0].kind, b[0].kind, ClaimsTokens(a[1..]) + x, ClaimsTokens(b[1..]) + y);
      ClaimsCancel(a[1..], b[1..], x, y);
      assert a == [a[0]] + a[1..] && b == [b[0]] + b[1..];
    }
  }

  /** `name=value;` with a value. */
  predicate StartsField(x: seq<Token>, name: string) {
    |x| > 1 && x[0] == (name, '=') && x[1].1 == ';' && x[1].0 != ""
  }

  lemma FieldCancel(name: string, u: Option<string>, v: Option<string>, x: seq<Token>, y: seq<Token>)
    requires (u.Some? ==> u.value != "") && (v.Some? ==> v.value != "")
    requires !StartsField(x, name) && !StartsField(y, name)
    requires FieldTokens(name, u) + x == FieldTokens(name, v) + y
    ensures u == v && x == y
  {
    var s, t := FieldTokens(name, u) + x, FieldTokens(name, v) + y;
    assert u.None? ==> s == x;
    assert v.None? ==> t == y;
    assert u.Some? ==> s[0] == (name, '=') && s[1] == (u.value, ';') && s[2..] == x;
    assert v.Some? ==> t[0] == (name, '=') && t[1] == (v.value, ';') && t[2..] == y;
  }

  /** A capability, or the start of the ui part. */
  predicate EndsConditions(x: seq<Token>) {
    |x| > 1 && (x[0].1 == ':' || (x[0].1 == '=' && x[1].1 == ':'))
  }

  lemma ConditionsEnd(a: seq<PolicyClaimCondition>, x: seq<Token>)
    requires EndsConditions(x)
    ensures EndsConditions(ConditionsTokens(a) + x) <==> a == []
    ensures a == [] ==> ConditionsTokens(a) + x == x
  {
    if a == [] {
      assert ConditionsTokens(a) + x == x;
    } else {
      ConditionStarts(a, x);
    }
  }

  lemma ConditionsHead(a: seq<PolicyClaimCondition>, x: seq<Token>)
    requires a != []
    ensures var s := ConditionsTokens(a) + x;
            && s != [] && s[0] == (a[0].claim, '=')
            && s[1..] == Words(a[0].values) + ([("", ';')] + (ConditionsTokens(a[1..]) + x))
  {
    hide Words;
    RegroupTwice((a[0].claim, '='), Words(a[0].values), [("", ';')], ConditionsTokens(a[1..]), x);
  }

  lemma {:induction false} ConditionsCancel(a: seq<PolicyClaimCondition>, b: seq<PolicyClaimCondition>, x: seq<Token>, y: seq<Token>)
    requires EndsConditions(x) && EndsConditions(y) && ConditionsTokens(a) + x == ConditionsTokens(b) + y
    ensures a == b && x == y
  {
    hide Words, ConditionsTokens;
    ConditionsEnd(a, x);
    ConditionsEnd(b, y);
    if a != [] {
      ConditionsHead(a, x);
      ConditionsHead(b, y);
      var u, v := ConditionsTokens(a[1..]) + x, ConditionsTokens(b[1..]) + y;
      var end: seq<Token> := [("", ';')];
      WordsCancel(a[0].values, b[0].values, end + u, end + v);
      assert (end + u)[1..] == u && (end + v)[1..] == v;
      ConditionsCancel(a[1..], b[1..], x, y);
      assert a == [a[0]] + a[1..] && b == [b[0]] + b[1..];
    }
  }

  /** A condition is never mistaken for a field or for what follows the conditions. */
  lemma ConditionStarts(conditions: seq<PolicyClaimCondition>, x: seq<Token>)
    requires conditions != []
    ensures var s := ConditionsTokens(conditions) + x;
            |s| > 1 && s[0].1 == '=' && (s[1].1 == ',' || s[1] == ("", ';'))
  {
    var s, values := ConditionsTokens(conditions) + x, conditions[0].values;
    if values == [] {
      assert s[1] == ("", ';');
    } else {
      assert s[1] == (values[0], ',');
    }
  }

  lemma NoFieldStarts(conditions: seq<PolicyClaimCondition>, x: seq<Token>, name: string)
    requires EndsConditions(x)
    ensures !StartsField(ConditionsTokens(conditions) + x, name)
  {
    if conditions == [] {
      assert ConditionsTokens(conditions) + x == x;
    } else {
      ConditionStarts(conditions, x);
    }
  }

  /** Something after optional fields of other names starts no field of this name. */
  lemma OtherField(name: string, other: string, value: Option<string>, x: seq<Token>)
    requires name != other && !StartsField(x, name)
    ensures !StartsField(FieldTokens(other, value) + x, name)
  {
    if value.None? {
      assert FieldTokens(other, value) + x == x;
    }
  }

  predicate FieldsOk(p: PolicyDef) {
    (p.resource.Some? ==> p.resource.value != "") && (p.action.Some? ==> p.action.value != "")
  }

  predicate EndsPolicies(x: seq<Token>) {
    |x| > 1 && x[0].1 == '=' && x[1].1 == ':'
  }

  function BodyTokens(p: PolicyDef, x: seq<Token>): seq<Token> {
    FieldTokens("tenant", Current(p.tenantCurrent)) +
    (FieldTokens("resource", p.resource) + (FieldTokens("action", p.action) + (ConditionsTokens(p.claims) + x)))
  }

  lemma BodyCancel(p: PolicyDef, q: PolicyDef, x: seq<Token>, y: seq<Token>)
    requires FieldsOk(p) && FieldsOk(q) && EndsConditions(x) && EndsConditions(y) && BodyTokens(p, x) == BodyTokens(q, y)
    ensures p.(capability := "") == q.(capability := "") && x == y
  {
    hide FieldTokens, ConditionsTokens, StartsField;
    var p3, q3 := ConditionsTokens(p.claims) + x, ConditionsTokens(q.claims) + y;
    var p2, q2 := FieldTokens("action", p.action) + p3, FieldTokens("action", q.action) + q3;
    var p1, q1 := FieldTokens("resource", p.resource) + p2, FieldTokens("resource", q.resource) + q2;
    NamesDiffer();
    AfterFields(p, x);
    AfterFields(q, y);
    FieldCancel("tenant", Current(p.tenantCurrent), Current(q.tenantCurrent), p1, q1);
    FieldCancel("resource", p.resource, q.resource, p2, q2);
    FieldCancel("action", p.action, q.action, p3, q3);
    ConditionsCancel(p.claims, q.claims, x, y);
  }

  lemma NamesDiffer()
    ensures "tenant" != "resource" && "tenant" != "action" && "resource" != "action" && "current" != ""
  {
    assert "tenant"[0] == 't' && "resource"[0] == 'r' && "action"[0] == 'a';
  }

  lemma AfterFields(p: PolicyDef, x: seq<Token>)
    requires EndsConditions(x)
    ensures var p3 := ConditionsTokens(p.claims) + x;
            var p2 := FieldTokens("action", p.action) + p3;
            var p1 := FieldTokens("resource", p.resource) + p2;
            !StartsField(p1, "tenant") && !StartsField(p2, "resource") && !StartsField(p3, "action")
  {
    hide FieldTokens, ConditionsTokens, StartsField;
    NamesDiffer();
    var p3 := ConditionsTokens(p.claims) + x;
    var p2 := FieldTokens("action", p.action) + p3;
    NoFieldStarts(p.claims, x, "tenant");
    NoFieldStarts(p.claims, x, "resource");
    NoFieldStarts(p.claims, x, "action");
    OtherField("tenant", "action", p.action, p3);
    OtherField("resource", "action", p.action, p3);
    OtherField("tenant", "resource", p.resource, p2);
  }

  lemma PolicyStep(policies: seq<PolicyDef>, x: seq<Token>)
    requires policies != []
    ensures PoliciesTokens(policies) + x == [(policies[0].capability, ':')] + BodyTokens(policies[0], PoliciesTokens(policies[1..]) + x)
  {
    hide FieldTokens, ConditionsTokens;
  }

  lemma PoliciesEndConditions(policies: seq<PolicyDef>, x: seq<Token>)
    requires EndsPolicies(x)
    ensures EndsConditions(PoliciesTokens(policies) + x)
  {
    hide FieldTokens, ConditionsTokens, PoliciesTokens;
    if policies == [] {
      assert PoliciesTokens(policies) + x == x by { NoPolicies(x); }
    } else {
      PolicyStep(policies, x);
      PoliciesLong(policies, x);
    }
  }

  lemma PoliciesLong(policies: seq<PolicyDef>, x: seq<Token>)
    requires policies != [] && |x| > 1
    ensures |PoliciesTokens(policies) + x| > 1
  {
  }

  lemma PoliciesHead(a: seq<PolicyDef>, x: seq<Token>)
    requires EndsPolicies(x)
    ensures var s := PoliciesTokens(a) + x;
            && s != [] && (s[0].1 == ':' <==> a != [])
            && (a != [] ==> s[0] == (a[0].capability, ':') && s[1..] == BodyTokens(a[0], PoliciesTokens(a[1..]) + x))
            && (a == [] ==> s == x)
  {
    hide PoliciesTokens, BodyTokens;
    if a == [] {
      NoPolicies(x);
    } else {
      PolicyStep(a, x);
    }
  }

  lemma {:induction false} PoliciesCancel(a: seq<PolicyDef>, b: seq<PolicyDef>, x: seq<Token>, y: seq<Token>)
    requires (forall p <- a :: FieldsOk(p)) && (forall p <- b :: FieldsOk(p))
    requires EndsPolicies(x) && EndsPolicies(y) && PoliciesTokens(a) + x == PoliciesTokens(b) + y
    ensures a == b && x == y
  {
    hide PoliciesTokens, BodyTokens;
    PoliciesHead(a, x);
    PoliciesHead(b, y);
    if a != [] {
      PoliciesEndConditions(a[1..], x);
      PoliciesEndConditions(b[1..], y);
      assert a[0] in a && b[0] in b;
      BodyCancel(a[0], b[0], PoliciesTokens(a[1..]) + x, PoliciesTokens(b[1..]) + y);
      PoliciesCancel(a[1..], b[1..], x, y);
      assert a == [a[0]] + a[1..] && b == [b[0]] + b[1..];
    }
  }

  // ----- Words for finite types ---------------------------------------------------------------------

  /** Length, first and tenth character: enough to tell these words apart. */
  function Shape(s: string): (nat, char, char)
    requires s != ""
  {
    (|s|, s[0], if |s| > 9 then s[9] else ' ')
  }

  function ScreenShape(s: UiScreen): (nat, char, char) {
    match s
    case Login => (5, 'l', ' ')
    case Signup => (6, 's', ' ')
    case Account => (7, 'a', ' ')
    case PasswordForgot => (15, 'p', 'f')
    case PasswordReset => (14, 'p', 'r')
    case PasswordChange => (15, 'p', 'c')
    case EmailVerification => (18, 'e', 'i')
    case AccountLinks => (13, 'a', 'i')
    case Profile => (7, 'p', ' ')
    case Devices => (7, 'd', ' ')
    case Sessions => (8, 's', ' ')
    case Mfa => (3, 'm', ' ')
    case Passkeys => (8, 'p', ' ')
    case Recovery => (8, 'r', ' ')
    case TenantScreen => (6, 't', ' ')
    case Agents => (6, 'a', ' ')
  }

  lemma ScreenShapes(s: UiScreen)
    ensures ScreenText(s) != "" && Shape(ScreenText(s)) == ScreenShape(s)
  {
  }

  lemma ScreenDecides(a: UiScreen, b: UiScreen)
    requires ScreenText(a) == ScreenText(b)
    ensures a == b
  {
    hide ScreenText, Shape;
    ScreenShapes(a);
    ScreenShapes(b);
  }

  lemma StateDecides(a: ExperienceState, b: ExperienceState)
    requires StateText(a) == StateText(b)
    ensures a == b
  {
    assert |StateText(Disabled)| == 8 && StateText(Disabled)[0] == 'd';
    assert |StateText(Enabled)| == 7;
    assert |StateText(Required)| == 8 && StateText(Required)[0] == 'r';
    assert |StateText(AdminOnly)| == 10;
  }

  lemma RendererDecides(a: Renderer, b: Renderer)
    requires RendererText(a) == RendererText(b)
    ensures a == b
  {
    assert |RendererText(Generated)| == 9 && |RendererText(CustomRenderer)| == 6;
    assert RendererText(Embedded)[0] == 'e' && |RendererText(Embedded)| == 8;
    assert RendererText(Headless)[0] == 'h' && |RendererText(Headless)| == 8;
  }

  lemma SmallDecide(a: bool, b: bool, m: UiMode, n: UiMode, i: IsolationMode, j: IsolationMode)
    ensures BoolText(a) == BoolText(b) <==> a == b
    ensures ModeText(m) == ModeText(n) <==> m == n
    ensures IsolationText(i) == IsolationText(j) <==> i == j
  {
    assert |BoolText(true)| == 4 && |BoolText(false)| == 5;
    assert |ModeText(DefaultMode)| == 7 && |ModeText(CustomMode)| == 6;
    assert |IsolationText(Strict)| == 6 && |IsolationText(SharedStorageWithPolicy)| == 23;
  }

  lemma DaysDecide(a: Option<nat>, b: Option<nat>)
    requires DaysText(a) == DaysText(b)
    ensures a == b
  {
    assert "null"[0] == 'n';
    if a.Some? {
      assert Decimal(a.value)[0] in Decimal(a.value);
    }
    if b.Some? {
      assert Decimal(b.value)[0] in Decimal(b.value);
    }
    if a.Some? && b.Some? {
      DecimalIsInjective(a.value, b.value);
    }
  }

  // ----- The remaining parts ------------------------------------------------------------------------

  lemma FixedCancel(u: seq<Token>, v: seq<Token>, x: seq<Token>, y: seq<Token>)
    requires |u| == |v| && u + x == v + y
    ensures u == v && x == y
  {
    assert (u + x)[..|u|] == u && (v + y)[..|v|] == v;
    assert (u + x)[|u|..] == x && (v + y)[|v|..] == y;
  }

  predicate EndsScreens(x: seq<Token>) {
    x != [] && x[0].1 == ';'
  }

  lemma AfterTwo(a: Token, b: Token, w: seq<Token>, x: seq<Token>)
    ensures var s := ([a, b] + w) + x; |s| > 1 && s[0] == a && s[1] == b && s[2..] == w + x
  {
  }

  lemma ScreensHead(a: seq<UiScreenOverride>, x: seq<Token>)
    requires EndsScreens(x)
    ensures var s := ScreensTokens(a) + x;
            && s != [] && (s[0].1 == '=' <==> a != [])
            && (a != [] ==> |s| > 1 && s[0].0 == ScreenText(a[0].screen) && s[1].0 == ModeText(a[0].mode)
                            && s[2..] == ScreensTokens(a[1..]) + x)
            && (a == [] ==> s == x)
  {
    hide ScreenText, ModeText;
    if a == [] {
      assert ScreensTokens(a) + x == x;
    } else {
      var w := ScreensTokens(a[1..]);
      var first, second := (ScreenText(a[0].screen), '='), (ModeText(a[0].mode), ',');
      assert ScreensTokens(a) == [first, second] + w;
      hide ScreensTokens;
      AfterTwo(first, second, w, x);
    }
  }

  lemma {:induction false} ScreensCancel(a: seq<UiScreenOverride>, b: seq<UiScreenOverride>, x: seq<Token>, y: seq<Token>)
    requires EndsScreens(x) && EndsScreens(y) && ScreensTokens(a) + x == ScreensTokens(b) + y
    ensures a == b && x == y
  {
    hide ScreensTokens, ScreenText, ModeText;
    ScreensHead(a, x);
    ScreensHead(b, y);
    if a != [] {
      ScreenDecides(a[0].screen, b[0].screen);
      SmallDecide(true, true, a[0].mode, b[0].mode, Strict, Strict);
      ScreensCancel(a[1..], b[1..], x, y);
      assert a == [a[0]] + a[1..] && b == [b[0]] + b[1..];
    }
  }

  lemma UiCancel(a: AuthUiConfig, b: AuthUiConfig, x: seq<Token>, y: seq<Token>)
    requires UiTokens(a) + x == UiTokens(b) + y
    ensures a.(mode := b.mode) == b && x == y
  {
    hide ScreensTokens, RendererText;
    var end: seq<Token> := [("", ';')];
    UiParts(a, x);
    UiParts(b, y);
    FixedCancel(UiHead(a), UiHead(b), ScreensTokens(a.screens) + (end + x), ScreensTokens(b.screens) + (end + y));
    assert UiHead(a)[2] == UiHead(b)[2] && UiHead(a)[4] == UiHead(b)[4];
    RendererDecides(a.renderer, b.renderer);
    ScreensCancel(a.screens, b.screens, end + x, end + y);
    FixedCancel(end, end, x, y);
  }

  lemma UiParts(ui: AuthUiConfig, x: seq<Token>)
    ensures UiTokens(ui) + x == UiHead(ui) + (ScreensTokens(ui.screens) + ([("", ';')] + x))
  {
    hide ScreensTokens, RendererText;
    var h, w, e := UiHead(ui), ScreensTokens(ui.screens), [("", ';')];
    assert UiTokens(ui) == h + (w + e);
    JoinAssoc(h, w, e, x);
  }

  lemma JoinAssoc(h: seq<Token>, w: seq<Token>, e: seq<Token>, x: seq<Token>)
    ensures (h + (w + e)) + x == h + (w + (e + x))
  {
  }

  lemma {:induction false} LabelLength(pairs: seq<(string, string)>, close: char)
    ensures |LabelTokens(pairs, close)| == 2 * |pairs|
  {
    if pairs != [] {
      LabelLength(pairs[1..], close);
    }
  }

  lemma {:induction false} LabelsDecide(p: seq<(string, string)>, q: seq<(string, string)>, close: char)
    requires |p| == |q| && LabelTokens(p, close) == LabelTokens(q, close)
    ensures p == q
  {
    if p != [] {
      var s, t := LabelTokens(p, close), LabelTokens(q, close);
      assert s[0] == (p[0].0, ':') && s[1] == (p[0].1, close) && t[0] == (q[0].0, ':') && t[1] == (q[0].1, close);
      assert s[2..] == LabelTokens(p[1..], close) && t[2..] == LabelTokens(q[1..], close);
      LabelsDecide(p[1..], q[1..], close);
      assert p == [p[0]] + p[1..] && q == [q[0]] + q[1..];
    }
  }

  lemma ExposedDecides(a: AuthExperience, b: AuthExperience)
    requires Exposed(a) == Exposed(b)
    ensures a == b
  {
    hide StateText;
    var s, t := Exposed(a), Exposed(b);
    assert s[0] == t[0] && s[1] == t[1] && s[2] == t[2] && s[3] == t[3] && s[4] == t[4] && s[5] == t[5];
    assert s[6] == t[6] && s[7] == t[7] && s[8] == t[8] && s[9] == t[9] && s[10] == t[10] && s[11] == t[11];
    assert s[12] == t[12] && s[13] == t[13] && s[14] == t[14] && s[15] == t[15];
    StateDecides(a.signIn, b.signIn);
    StateDecides(a.signUp, b.signUp);
    StateDecides(a.signOut, b.signOut);
    StateDecides(a.password, b.password);
    StateDecides(a.passwordReset, b.passwordReset);
    StateDecides(a.passwordChange, b.passwordChange);
    StateDecides(a.externalIdentity, b.externalIdentity);
    StateDecides(a.accountLinking, b.accountLinking);
    StateDecides(a.emailVerification, b.emailVerification);
    StateDecides(a.mfa, b.mfa);
    StateDecides(a.passkeys, b.passkeys);
    StateDecides(a.deviceManagement, b.deviceManagement);
    StateDecides(a.sessionManagement, b.sessionManagement);
    StateDecides(a.profile, b.profile);
    StateDecides(a.tenantSwitching, b.tenantSwitching);
    StateDecides(a.recovery, b.recovery);
  }

  lemma ExperienceDecides(a: AuthExperience, b: AuthExperience)
    requires ExperienceTokens(a) == ExperienceTokens(b)
    ensures a == b
  {
    assert |Exposed(a)| == |Exposed(b)|;
    hide Exposed, LabelTokens;
    var s, t, end := LabelTokens(Exposed(a), ','), LabelTokens(Exposed(b), ','), [("", ';')];
    LabelLength(Exposed(a), ',');
    LabelLength(Exposed(b), ',');
    FixedCancel([("experience", '=')], [("experience", '=')], s + end, t + end);
    FixedCancel(s, t, end, end);
    LabelsDecide(Exposed(a), Exposed(b), ',');
    ExposedDecides(a, b);
  }

  lemma PasswordPartsDecide(a: PasswordPolicy, b: PasswordPolicy)
    requires PasswordParts(a) == PasswordParts(b)
    ensures a == b
  {
    hide BoolText, DaysText, Decimal;
    var s, t := PasswordParts(a), PasswordParts(b);
    assert s[0] == t[0] && s[1] == t[1] && s[2] == t[2] && s[3] == t[3] && s[4] == t[4];
    assert s[5] == t[5] && s[6] == t[6] && s[7] == t[7] && s[8] == t[8] && s[9] == t[9];
    DecimalIsInjective(a.minLength, b.minLength);
    DecimalIsInjective(a.maxLength, b.maxLength);
    DecimalIsInjective(a.historyCount, b.historyCount);
    DaysDecide(a.expirationDays, b.expirationDays);
    SmallDecide(a.requireUppercase, b.requireUppercase, DefaultMode, DefaultMode, Strict, Strict);
    SmallDecide(a.requireLowercase, b.requireLowercase, DefaultMode, DefaultMode, Strict, Strict);
    SmallDecide(a.requireNumber, b.requireNumber, DefaultMode, DefaultMode, Strict, Strict);
    SmallDecide(a.requireSpecialCharacter, b.requireSpecialCharacter, DefaultMode, DefaultMode, Strict, Strict);
    SmallDecide(a.allowChange, b.allowChange, DefaultMode, DefaultMode, Strict, Strict);
    SmallDecide(a.allowReset, b.allowReset, DefaultMode, DefaultMode, Strict, Strict);
  }

  lemma PasswordDecides(a: PasswordPolicy, b: PasswordPolicy)
    requires PasswordTokens(a) == PasswordTokens(b)
    ensures a == b
  {
    assert |PasswordParts(a)| == |PasswordParts(b)|;
    hide PasswordParts, LabelTokens;
    FixedCancel([("pwd_policy", '=')], [("pwd_policy", '=')], LabelTokens(PasswordParts(a), ';'), LabelTokens(PasswordParts(b), ';'));
    LabelsDecide(PasswordParts(a), PasswordParts(b), ';');
    PasswordPartsDecide(a, b);
  }

  lemma StorageDecides(a: StorageConfig, b: StorageConfig)
    requires StorageTokens(a) == StorageTokens(b)
    ensures a == b
  {
    var s, t := StorageTokens(a), StorageTokens(b);
    assert s[2].0 == t[2].0 && s[4].0 == t[4].0 && s[6].0 == t[6].0;
  }

  predicate EndsEntries(x: seq<Token>, kind: string) {
    x == [] || x[0] != (kind, ':')
  }

  lemma AfterThree(a: Token, b: Token, c: Token, w: seq<Token>, x: seq<Token>)
    ensures var s := ([a, b, c] + w) + x; |s| > 2 && s[0] == a && s[1] == b && s[2] == c && s[3..] == w + x
  {
  }

  lemma EntriesHead(kind: string, a: seq<(string, string)>, x: seq<Token>)
    requires EndsEntries(x, kind)
    ensures var s := EntriesTokens(kind, a) + x;
            && (EndsEntries(s, kind) <==> a == [])
            && (a != [] ==> |s| > 2 && s[1].0 == a[0].0 && s[2].0 == a[0].1 && s[3..] == EntriesTokens(kind, a[1..]) + x)
            && (a == [] ==> s == x)
  {
    if a == [] {
      assert EntriesTokens(kind, a) + x == x;
    } else {
      var w := EntriesTokens(kind, a[1..]);
      assert EntriesTokens(kind, a) == [(kind, ':'), (a[0].0, '='), (a[0].1, ';')] + w;
      hide EntriesTokens;
      AfterThree((kind, ':'), (a[0].0, '='), (a[0].1, ';'), w, x);
    }
  }

  lemma {:induction false} EntriesCancel(kind: string, a: seq<(string, string)>, b: seq<(string, string)>,
                                         x: seq<Token>, y: seq<Token>)
    requires EndsEntries(x, kind) && EndsEntries(y, kind) && EntriesTokens(kind, a) + x == EntriesTokens(kind, b) + y
    ensures a == b && x == y
  {
    hide EntriesTokens, EndsEntries;
    EntriesHead(kind, a, x);
    EntriesHead(kind, b, y);
    if a != [] {
      EntriesCancel(kind, a[1..], b[1..], x, y);
      assert a == [a[0]] + a[1..] && b == [b[0]] + b[1..];
    }
  }

  lemma MailDecides(a: Option<MailConfig>, b: Option<MailConfig>)
    requires MailTokens(a) == MailTokens(b)
    ensures a == b
  {
    hide EntriesTokens;
    if a.Some? {
      assert MailTokens(a)[0] == ("mail", '=');
      var x, y := EntriesTokens("template", a.value.templates), EntriesTokens("template", b.value.templates);
      TemplatesEnd(a.value.templates);
      TemplatesEnd(b.value.templates);
      assert MailTokens(a)[1..] == EntriesTokens("identity", a.value.identities) + x;
      assert MailTokens(b)[1..] == EntriesTokens("identity", b.value.identities) + y;
      EntriesCancel("identity", a.value.identities, b.value.identities, x, y);
      assert x + [] == x && y + [] == y;
      EntriesCancel("template", a.value.templates, b.value.templates, [], []);
    }
  }

  lemma TemplatesEnd(templates: seq<(string, string)>)
    ensures EndsEntries(EntriesTokens("template", templates), "identity") && EndsEntries([], "template")
  {
    assert "template"[0] == 't' && "identity"[0] == 'i';
  }

  // ----- The whole ----------------------------------------------------------------------------------

  predicate PoliciesOk(c: AuthConfig) {
    forall p <- c.policies :: FieldsOk(p)
  }

  /** The declarations agree in everything that is written. */
  predicate SameWritten(a: AuthConfig, b: AuthConfig) {
    a.(ui := a.ui.(mode := b.ui.mode)) == b
  }

  lemma TailDecides(a: AuthConfig, b: AuthConfig)
    requires AfterUi(a) == AfterUi(b)
    ensures a.experience == b.experience && a.passwordPolicy == b.passwordPolicy && a.storage == b.storage && a.mail == b.mail
  {
    FixedLengths(a);
    FixedLengths(b);
    assert |StorageTokens(a.storage)| == |StorageTokens(b.storage)| == 7;
    hide ExperienceTokens, PasswordTokens, StorageTokens, MailTokens;
    var s3, t3 := StorageTokens(a.storage) + MailTokens(a.mail), StorageTokens(b.storage) + MailTokens(b.mail);
    var s2, t2 := PasswordTokens(a.passwordPolicy) + s3, PasswordTokens(b.passwordPolicy) + t3;
    FixedCancel(ExperienceTokens(a.experience), ExperienceTokens(b.experience), s2, t2);
    FixedCancel(PasswordTokens(a.passwordPolicy), PasswordTokens(b.passwordPolicy), s3, t3);
    FixedCancel(StorageTokens(a.storage), StorageTokens(b.storage), MailTokens(a.mail), MailTokens(b.mail));
    ExperienceDecides(a.experience, b.experience);
    PasswordDecides(a.passwordPolicy, b.passwordPolicy);
    StorageDecides(a.storage, b.storage);
    MailDecides(a.mail, b.mail);
  }

  lemma FixedLengths(c: AuthConfig)
    ensures |ExperienceTokens(c.experience)| == 34 && |PasswordTokens(c.passwordPolicy)| == 21
  {
    assert |Exposed(c.experience)| == 16 && |PasswordParts(c.passwordPolicy)| == 10;
    hide Exposed, PasswordParts, LabelTokens;
    LabelLength(Exposed(c.experience), ',');
    LabelLength(PasswordParts(c.passwordPolicy), ';');
  }

  lemma FromPoliciesDecides(a: AuthConfig, b: AuthConfig)
    requires PoliciesOk(a) && PoliciesOk(b) && FromPolicies(a) == FromPolicies(b)
    ensures a.agents == b.agents && a.policies == b.policies && a.ui.(mode := b.ui.mode) == b.ui
    ensures AfterUi(a) == AfterUi(b)
  {
    hide PoliciesTokens, AfterUi, BoolText;
    var s, t := UiTokens(a.ui) + AfterUi(a), UiTokens(b.ui) + AfterUi(b);
    UiStarts(a.ui, AfterUi(a));
    UiStarts(b.ui, AfterUi(b));
    FixedCancel(BeforePolicies(a), BeforePolicies(b), PoliciesTokens(a.policies) + s, PoliciesTokens(b.policies) + t);
    assert BeforePolicies(a)[1] == BeforePolicies(b)[1];
    SmallDecide(a.agents, b.agents, DefaultMode, DefaultMode, Strict, Strict);
    PoliciesCancel(a.policies, b.policies, s, t);
    UiCancel(a.ui, b.ui, AfterUi(a), AfterUi(b));
  }

  lemma UiStarts(ui: AuthUiConfig, x: seq<Token>)
    ensures EndsPolicies(UiTokens(ui) + x)
  {
    hide ScreensTokens, RendererText;
  }

  lemma TokensDecide(a: AuthConfig, b: AuthConfig)
    requires PoliciesOk(a) && PoliciesOk(b) && Tokens(a) == Tokens(b)
    ensures SameWritten(a, b)
  {
    hide Tokens, Words, ClaimsTokens, FromPolicies, BoolText, IsolationText;
    TokensAre(a);
    TokensAre(b);
    var s4, t4 := ClaimsTokens(a.claims) + FromPolicies(a), ClaimsTokens(b.claims) + FromPolicies(b);
    var s3, t3 := BeforeClaims(a) + s4, BeforeClaims(b) + t4;
    FixedCancel(BeforeProviders(a), BeforeProviders(b), Words(a.providers) + s3, Words(b.providers) + t3);
    WordsCancel(a.providers, b.providers, s3, t3);
    FixedCancel(BeforeClaims(a), BeforeClaims(b), s4, t4);
    PoliciesStart(a);
    PoliciesStart(b);
    ClaimsCancel(a.claims, b.claims, FromPolicies(a), FromPolicies(b));
    assert BeforeProviders(a)[1] == BeforeProviders(b)[1] && BeforeClaims(a)[2] == BeforeClaims(b)[2];
    SmallDecide(a.multiTenant, b.multiTenant, DefaultMode, DefaultMode, a.isolation, b.isolation);
    FromPoliciesDecides(a, b);
    TailDecides(a, b);
  }

  lemma PoliciesStart(c: AuthConfig)
    ensures EndsClaims(FromPolicies(c))
  {
    hide PoliciesTokens, UiTokens, AfterUi;
  }

  // ----- Plain names --------------------------------------------------------------------------------

  predicate PlainKind(kind: ClaimKind) {
    kind.EnumKind? ==> forall v <- kind.values :: IsPlain(v)
  }

  predicate PlainPolicy(p: PolicyDef) {
    && IsPlain(p.capability) && FieldsOk(p)
    && (p.resource.Some? ==> IsPlain(p.resource.value)) && (p.action.Some? ==> IsPlain(p.action.value))
    && forall c <- p.claims :: IsPlain(c.claim) && forall v <- c.values :: IsPlain(v)
  }

  predicate PlainEntries(entries: seq<(string, string)>) {
    forall e <- entries :: IsPlain(e.0) && IsPlain(e.1)
  }

  /** No name holds a delimiter, and no resource or action is an empty text. */
  predicate PlainNames(c: AuthConfig) {
    && (forall p <- c.providers :: IsPlain(p))
    && (forall d <- c.claims :: IsPlain(d.name) && PlainKind(d.kind))
    && (forall p <- c.policies :: PlainPolicy(p))
    && IsPlain(c.ui.theme)
    && IsPlain(c.storage.authority) && IsPlain(c.storage.audit) && IsPlain(c.storage.reporting)
    && (c.mail.Some? ==> PlainEntries(c.mail.value.identities) && PlainEntries(c.mail.value.templates))
  }

  lemma OkJoins(a: seq<Token>, b: seq<Token>)
    requires TokensOk(a) && TokensOk(b)
    ensures TokensOk(a + b)
  {
    hide IsPlain, IsDelimiter;
  }

  lemma WordsOk(words: seq<string>)
    requires forall w <- words :: IsPlain(w)
    ensures TokensOk(Words(words))
  {
    hide IsPlain;
  }

  lemma KindOk(kind: ClaimKind)
    requires PlainKind(kind)
    ensures TokensOk(KindTokens(kind))
  {
    if kind.EnumKind? {
      hide Words;
      WordsOk(kind.values);
      OkJoins(Words(kind.values), [("", ']'), ("", ';')]);
      OkJoins([("enum", '[')], Words(kind.values) + [("", ']'), ("", ';')]);
    }
  }

  lemma {:induction false} ClaimsOk(claims: seq<ClaimDef>)
    requires forall d <- claims :: IsPlain(d.name) && PlainKind(d.kind)
    ensures TokensOk(ClaimsTokens(claims))
  {
    hide IsPlain, KindTokens, PlainKind;
    if claims != [] {
      KindOk(claims[0].kind);
      ClaimsOk(claims[1..]);
      OkJoins(KindTokens(claims[0].kind), ClaimsTokens(claims[1..]));
      OkJoins([(claims[0].name, ':')], KindTokens(claims[0].kind) + ClaimsTokens(claims[1..]));
    }
  }

  lemma FieldOk(name: string, value: Option<string>)
    requires IsPlain(name) && (value.Some? ==> IsPlain(value.value))
    ensures TokensOk(FieldTokens(name, value))
  {
    hide IsPlain;
  }

  lemma {:induction false} ConditionsOk(conditions: seq<PolicyClaimCondition>)
    requires forall c <- conditions :: IsPlain(c.claim) && forall v <- c.values :: IsPlain(v)
    ensures TokensOk(ConditionsTokens(conditions))
  {
    if conditions != [] {
      var c, rest := conditions[0], ConditionsTokens(conditions[1..]);
      assert c in conditions;
      WordsOk(c.values);
      ConditionsOk(conditions[1..]);
      assert TokensOk([("", ';')]) && TokensOk([(c.claim, '=')]);
      hide IsPlain, Words, ConditionsTokens;
      OkJoins([("", ';')], rest);
      OkJoins(Words(c.values), [("", ';')] + rest);
      OkJoins([(c.claim, '=')], Words(c.values) + ([("", ';')] + rest));
      assert ConditionsTokens(conditions) == [(c.claim, '=')] + (Words(c.values) + ([("", ';')] + rest)) by {
        ConditionsUnfold(conditions);
      }
    }
  }

  lemma ConditionsUnfold(conditions: seq<PolicyClaimCondition>)
    requires conditions != []
    ensures ConditionsTokens(conditions) ==
            [(conditions[0].claim, '=')] + (Words(conditions[0].values) + ([("", ';')] + ConditionsTokens(conditions[1..])))
  {
  }

  lemma BodyOk(p: PolicyDef, x: seq<Token>)
    requires PlainPolicy(p) && TokensOk(x)
    ensures TokensOk(BodyTokens(p, x))
  {
    assert IsPlain("tenant") && IsPlain("current") && IsPlain("resource") && IsPlain("action");
    hide IsPlain, FieldTokens, ConditionsTokens, TokensOk;
    FieldOk("tenant", Current(p.tenantCurrent));
    FieldOk("resource", p.resource);
    FieldOk("action", p.action);
    ConditionsOk(p.claims);
    var p3 := ConditionsTokens(p.claims) + x;
    OkJoins(ConditionsTokens(p.claims), x);
    OkJoins(FieldTokens("action", p.action), p3);
    OkJoins(FieldTokens("resource", p.resource), FieldTokens("action", p.action) + p3);
    OkJoins(FieldTokens("tenant", Current(p.tenantCurrent)),
            FieldTokens("resource", p.resource) + (FieldTokens("action", p.action) + p3));
  }

  lemma {:induction false} PoliciesAreOk(policies: seq<PolicyDef>)
    requires forall p <- policies :: PlainPolicy(p)
    ensures TokensOk(PoliciesTokens(policies))
  {
    hide PlainPolicy, BodyTokens;
    if policies != [] {
      var p := policies[0];
      assert p in policies && IsPlain(p.capability) by { CapabilityIsPlain(p); }
      PoliciesAreOk(policies[1..]);
      BodyOk(p, PoliciesTokens(policies[1..]));
      PolicyStep(policies, []);
      assert PoliciesTokens(policies) + [] == PoliciesTokens(policies);
      assert PoliciesTokens(policies[1..]) + [] == PoliciesTokens(policies[1..]);
      assert TokensOk([(p.capability, ':')]);
      OkJoins([(p.capability, ':')], BodyTokens(p, PoliciesTokens(policies[1..])));
    }
  }

  lemma CapabilityIsPlain(p: PolicyDef)
    ensures PlainPolicy(p) ==> IsPlain(p.capability)
  {
  }

  lemma EntryScreensOk()
    ensures IsPlain("login") && IsPlain("signup") && IsPlain("account") && IsPlain("tenant") && IsPlain("agents")
    ensures IsPlain("profile") && IsPlain("devices") && IsPlain("sessions")
  {
  }

  lemma SecurityScreensOk()
    ensures IsPlain("password_forgot") && IsPlain("password_reset") && IsPlain("password_change")
    ensures IsPlain("email_verification")
  {
  }

  lemma RecoveryScreensOk()
    ensures IsPlain("account_links") && IsPlain("mfa") && IsPlain("passkeys") && IsPlain("recovery")
  {
  }

  lemma ScreenWordOk(s: UiScreen)
    ensures IsPlain(ScreenText(s))
  {
    hide IsPlain;
    EntryScreensOk();
    SecurityScreensOk();
    RecoveryScreensOk();
  }

  lemma BoolOk(b: bool)
    ensures IsPlain(BoolText(b))
  {
  }

  lemma ModeOk(m: UiMode)
    ensures IsPlain(ModeText(m))
  {
  }

  lemma IsolationOk(i: IsolationMode)
    ensures IsPlain(IsolationText(i))
  {
  }

  lemma RendererOk(r: Renderer)
    ensures IsPlain(RendererText(r))
  {
  }

  lemma StateOk(e: ExperienceState)
    ensures IsPlain(StateText(e))
  {
  }

  lemma {:induction false} ScreensOk(screens: seq<UiScreenOverride>)
    ensures TokensOk(ScreensTokens(screens))
  {
    hide IsPlain, ScreenText, ModeText;
    if screens != [] {
      ScreenWordOk(screens[0].screen);
      ModeOk(screens[0].mode);
      ScreensOk(screens[1..]);
    }
  }

  lemma UiOk(ui: AuthUiConfig)
    requires IsPlain(ui.theme)
    ensures TokensOk(UiTokens(ui))
  {
    hide IsPlain, ScreensTokens, RendererText;
    OpeningWordsOk();
    RendererOk(ui.renderer);
    ScreensOk(ui.screens);
    assert TokensOk(UiHead(ui)) && TokensOk([("", ';')]);
    OkJoins(ScreensTokens(ui.screens), [("", ';')]);
    OkJoins(UiHead(ui), ScreensTokens(ui.screens) + [("", ';')]);
  }

  lemma ExperienceWordsOk()
    ensures IsPlain("sign_in") && IsPlain("sign_up") && IsPlain("sign_out") && IsPlain("password")
    ensures IsPlain("password_reset") && IsPlain("password_change")
  {
  }

  lemma IdentityWordsOk()
    ensures IsPlain("external_identity") && IsPlain("account_linking") && IsPlain("email_verification") && IsPlain("mfa")
    ensures IsPlain("passkeys")
  {
  }

  lemma AccountWordsOk()
    ensures IsPlain("device_management") && IsPlain("session_management") && IsPlain("profile")
    ensures IsPlain("tenant_switching") && IsPlain("recovery")
  {
  }

  lemma {:induction false} LabelsOk(pairs: seq<(string, string)>, close: char)
    requires PlainEntries(pairs) && IsDelimiter(close)
    ensures TokensOk(LabelTokens(pairs, close))
  {
    hide IsPlain;
    if pairs != [] {
      LabelsOk(pairs[1..], close);
    }
  }

  lemma SignIsPlain(e: AuthExperience)
    ensures PlainEntries(SignExperience(e))
  {
    hide IsPlain, StateText;
    ExperienceWordsOk();
    forall s ensures IsPlain(StateText(s)) {
      StateOk(s);
    }
  }

  lemma IdentityIsPlain(e: AuthExperience)
    ensures PlainEntries(IdentityExperience(e))
  {
    hide IsPlain, StateText;
    IdentityWordsOk();
    forall s ensures IsPlain(StateText(s)) {
      StateOk(s);
    }
  }

  lemma AccountIsPlain(e: AuthExperience)
    ensures PlainEntries(AccountExperience(e))
  {
    hide IsPlain, StateText;
    AccountWordsOk();
    forall s ensures IsPlain(StateText(s)) {
      StateOk(s);
    }
  }

  lemma ExposedIsPlain(e: AuthExperience)
    ensures PlainEntries(Exposed(e))
  {
    hide IsPlain, SignExperience, IdentityExperience, AccountExperience;
    SignIsPlain(e);
    IdentityIsPlain(e);
    AccountIsPlain(e);
  }

  lemma OpeningWordsOk()
    ensures IsPlain("experience") && IsPlain("pwd_policy") && IsPlain("")
    ensures IsPlain("ui") && IsPlain("mode") && IsPlain("theme") && IsPlain("screens")
  {
  }

  lemma ExperienceOk(e: AuthExperience)
    ensures TokensOk(ExperienceTokens(e))
  {
    hide IsPlain, Exposed, LabelTokens;
    OpeningWordsOk();
    ExposedIsPlain(e);
    LabelsOk(Exposed(e), ',');
    OkJoins(LabelTokens(Exposed(e), ','), [("", ';')]);
    OkJoins([("experience", '=')], LabelTokens(Exposed(e), ',') + [("", ';')]);
  }

  lemma PasswordWordsOk()
    ensures IsPlain("min") && IsPlain("max") && IsPlain("upper") && IsPlain("lower") && IsPlain("number")
    ensures IsPlain("special") && IsPlain("expiration") && IsPlain("history") && IsPlain("change") && IsPlain("reset")
  {
  }

  lemma NumberOk(n: nat)
    ensures IsPlain(Decimal(n))
  {
    forall c | c in Decimal(n) ensures !IsDelimiter(c) {
    }
  }

  lemma DaysOk(days: Option<nat>)
    ensures IsPlain(DaysText(days))
  {
    if days.Some? {
      NumberOk(days.value);
    }
  }

  lemma PartsArePlain(p: PasswordPolicy)
    ensures PlainEntries(PasswordParts(p))
  {
    hide IsPlain, BoolText, DaysText, Decimal;
    PasswordWordsOk();
    forall b ensures IsPlain(BoolText(b)) {
      BoolOk(b);
    }
    NumberOk(p.minLength);
    NumberOk(p.maxLength);
    NumberOk(p.historyCount);
    DaysOk(p.expirationDays);
  }

  lemma PasswordOk(p: PasswordPolicy)
    ensures TokensOk(PasswordTokens(p))
  {
    hide IsPlain, PasswordParts, LabelTokens;
    OpeningWordsOk();
    PartsArePlain(p);
    LabelsOk(PasswordParts(p), ';');
    OkJoins([("pwd_policy", '=')], LabelTokens(PasswordParts(p), ';'));
  }

  lemma StorageOk(s: StorageConfig)
    requires IsPlain(s.authority) && IsPlain(s.audit) && IsPlain(s.reporting)
    ensures TokensOk(StorageTokens(s))
  {
    assert IsPlain("storage") && IsPlain("authority") && IsPlain("audit") && IsPlain("reporting");
    hide IsPlain;
  }

  lemma {:induction false} EntriesOk(kind: string, entries: seq<(string, string)>)
    requires IsPlain(kind) && PlainEntries(entries)
    ensures TokensOk(EntriesTokens(kind, entries))
  {
    hide IsPlain;
    if entries != [] {
      EntriesOk(kind, entries[1..]);
    }
  }

  lemma MailOk(mail: Option<MailConfig>)
    requires mail.Some? ==> PlainEntries(mail.value.identities) && PlainEntries(mail.value.templates)
    ensures TokensOk(MailTokens(mail))
  {
    if mail.Some? {
      assert IsPlain("identity") && IsPlain("template") && TokensOk([("mail", '=')]);
      hide IsPlain, EntriesTokens;
      EntriesOk("identity", mail.value.identities);
      EntriesOk("template", mail.value.templates);
      var w, e := EntriesTokens("identity", mail.value.identities), EntriesTokens("template", mail.value.templates);
      OkJoins(w, e);
      OkJoins([("mail", '=')], w + e);
    }
  }

  lemma AfterUiOk(c: AuthConfig)
    requires PlainNames(c)
    ensures TokensOk(AfterUi(c))
  {
    hide TokensOk, ExperienceTokens, PasswordTokens, StorageTokens, MailTokens, IsPlain;
    ExperienceOk(c.experience);
    PasswordOk(c.passwordPolicy);
    StorageOk(c.storage);
    MailOk(c.mail);
    OkJoins(StorageTokens(c.storage), MailTokens(c.mail));
    OkJoins(PasswordTokens(c.passwordPolicy), StorageTokens(c.storage) + MailTokens(c.mail));
    OkJoins(ExperienceTokens(c.experience), PasswordTokens(c.passwordPolicy) + (StorageTokens(c.storage) + MailTokens(c.mail)));
  }

  lemma HeadWordsOk()
    ensures IsPlain("multi_tenant") && IsPlain("providers") && IsPlain("isolation") && IsPlain("claims")
    ensures IsPlain("agents") && IsPlain("policies") && IsPlain("")
  {
  }

  lemma HeadsOk(c: AuthConfig)
    ensures TokensOk(BeforeProviders(c)) && TokensOk(BeforeClaims(c)) && TokensOk(BeforePolicies(c))
  {
    hide IsPlain, BoolText, IsolationText;
    HeadWordsOk();
    BoolOk(c.multiTenant);
    BoolOk(c.agents);
    IsolationOk(c.isolation);
  }

  lemma PlainTokens(c: AuthConfig)
    requires PlainNames(c)
    ensures TokensOk(Tokens(c))
  {
    hide TokensOk, Tokens, Words, ClaimsTokens, PoliciesTokens, UiTokens, AfterUi, IsPlain, PlainPolicy, PlainKind;
    HeadsOk(c);
    WordsOk(c.providers);
    ClaimsOk(c.claims);
    PoliciesAreOk(c.policies);
    UiOk(c.ui);
    AfterUiOk(c);
    OkJoins(UiTokens(c.ui), AfterUi(c));
    OkJoins(PoliciesTokens(c.policies), UiTokens(c.ui) + AfterUi(c));
    OkJoins(BeforePolicies(c), PoliciesTokens(c.policies) + (UiTokens(c.ui) + AfterUi(c)));
    OkJoins(ClaimsTokens(c.claims), FromPolicies(c));
    OkJoins(BeforeClaims(c), ClaimsTokens(c.claims) + FromPolicies(c));
    OkJoins(Words(c.providers), BeforeClaims(c) + (ClaimsTokens(c.claims) + FromPolicies(c)));
    OkJoins(BeforeProviders(c), Words(c.providers) + (BeforeClaims(c) + (ClaimsTokens(c.claims) + FromPolicies(c))));
    TokensAre(c);
  }

  // ----- When the bytes decide ----------------------------------------------------------------------

  lemma SortedHolds<T(!new)>(s: seq<T>, le: (T, T) -> bool, p: T -> bool)
    requires TotalPreorder(le) && forall x <- s :: p(x)
    ensures forall x <- Sort(s, le) :: p(x)
  {
    SortSorts(s, le);
    forall x | x in Sort(s, le) ensures p(x) {
      assert x in multiset(Sort(s, le));
      assert x in multiset(s);
    }
  }

  lemma PlainClaim(d: ClaimDef)
    requires IsPlain(d.name) && PlainKind(d.kind)
    ensures IsPlain(CanonicalClaim(d).name) && PlainKind(CanonicalClaim(d).kind)
  {
    if d.kind.EnumKind? {
      hide IsPlain;
      Orders();
      SortedHolds(d.kind.values, byText, (v: string) => IsPlain(v));
    }
  }

  lemma PlainCanonical(c: AuthConfig)
    requires PlainNames(c)
    ensures PlainNames(Canonical(c)) && PoliciesOk(Canonical(c))
  {
    hide IsPlain, PlainKind, PlainPolicy, PlainEntries, CanonicalUi, CanonicalClaim, Sort, TotalPreorder, FieldsOk;
    Orders();
    SortedHolds(c.providers, byText, (v: string) => IsPlain(v));
    SortedHolds(c.claims, byName, (d: ClaimDef) => IsPlain(d.name) && PlainKind(d.kind));
    SortedHolds(c.policies, byCapability, (p: PolicyDef) => PlainPolicy(p));
    var sorted := Sort(c.claims, byName);
    forall d | d in CanonicalEach(sorted) ensures IsPlain(d.name) && PlainKind(d.kind) {
      var i :| 0 <= i < |sorted| && CanonicalEach(sorted)[i] == d;
      assert sorted[i] in sorted;
      PlainClaim(sorted[i]);
    }
    assert Canonical(c).ui.theme == c.ui.theme by { ThemeStays(c.ui); }
    forall p | p in Canonical(c).policies ensures FieldsOk(p) {
      PlainHasFields(p);
    }
  }

  lemma ThemeStays(ui: AuthUiConfig)
    ensures CanonicalUi(ui).theme == ui.theme
  {
  }

  lemma PlainHasFields(p: PolicyDef)
    ensures PlainPolicy(p) ==> FieldsOk(p)
  {
  }

  /** The stored ui mode is not written, but the screens decide it. */
  lemma WrittenIsAll(a: AuthConfig, b: AuthConfig)
    requires SameWritten(Canonical(a), Canonical(b))
    ensures Canonical(a) == Canonical(b)
  {
    hide Sort, Dedup, CanonicalEach;
    assert Canonical(a).ui.screens == Canonical(b).ui.screens;
  }

  lemma BytesDecideText(s: string, t: string)
    requires Encode(s) == Encode(t)
    ensures s == t
  {
    hide Encode, DecodeLossy;
    TextDecodes(s, []);
    TextDecodes(t, []);
    assert Encode(s) + [] == Encode(s) && Encode(t) + [] == Encode(t);
    var rest := DecodeLossy([]);
    assert (s + rest)[..|s + rest| - |rest|] == s && (t + rest)[..|t + rest| - |rest|] == t;
  }

  /** Valid declarations that differ only by reordering are written as the same bytes, whatever their names. */
  lemma RearrangedHaveSameBytes(a: AuthConfig, b: AuthConfig)
    requires IsValid(a) && IsValid(b) && SameDeclaration(a, b)
    ensures BytesOf(a) == BytesOf(b)
  {
    hide Canonical, SameDeclaration, IsValid, Tokens, TextOf, Encode;
    CanonicalDecides(a, b);
  }

  /** Between valid declarations with plain names the bytes decide: they are equal exactly when the declarations
      differ only by reordering. */
  lemma BytesDecideExactly(a: AuthConfig, b: AuthConfig)
    requires IsValid(a) && IsValid(b) && PlainNames(a) && PlainNames(b)
    ensures BytesOf(a) == BytesOf(b) <==> SameDeclaration(a, b)
  {
    hide Canonical, SameDeclaration, IsValid, PlainNames, Tokens, TextOf, Encode, SameWritten, TokensOk, PoliciesOk;
    CanonicalDecides(a, b);
    if BytesOf(a) == BytesOf(b) {
      BytesDecideText(TextWritten(a), TextWritten(b));
      PlainCanonical(a);
      PlainCanonical(b);
      PlainTokens(Canonical(a));
      PlainTokens(Canonical(b));
      TextDecidesTokens(Tokens(Canonical(a)), Tokens(Canonical(b)));
      TokensDecide(Canonical(a), Canonical(b));
      WrittenIsAll(a, b);
    }
  }

  // ----- Declarations the bytes confuse -------------------------------------------------------------

  function Declaring(providers: seq<string>): AuthConfig {
    AuthConfig(false, providers, [], Strict, false, [], AuthUiConfig(Generated, DefaultMode, "authboundry-default", []),
               AuthExperience(Enabled, Enabled, Enabled, Enabled, Enabled, Enabled, Enabled, Enabled, Enabled, Disabled,
                              Disabled, Disabled, Enabled, Disabled, Enabled, Disabled),
               PasswordPolicy(12, 128, false, false, false, false, None, 5, true, true),
               StorageConfig("feltdb", "feltdb", "authboundry_projection"), None)
  }

  lemma DeclaringValidates(providers: seq<string>)
    requires providers != [] && Distinct(providers) && forall p <- providers :: !IsBlank(p)
    ensures Validates(Declaring(providers))
  {
    NotBlank("authboundry-default");
    StorageNamesValidate();
  }

  lemma StorageNamesValidate()
    ensures forall s <- ["feltdb", "feltdb", "authboundry_projection"] :: !IsBlank(s) && !HasText(s, "://") && !HasText(s, "@")
  {
    hide HasText, IsBlank, IsWhitespace;
    NotBlank("feltdb");
    NotBlank("authboundry_projection");
    NoMark("feltdb");
    NoMark("authboundry_projection");
  }

  lemma NotBlank(s: string)
    requires s != "" && 'a' <= s[0] <= 'z'
    ensures !IsBlank(s)
  {
    assert s[0] in s;
  }

  lemma NoMark(s: string)
    requires ':' !in s && '@' !in s
    ensures !HasText(s, "://") && !HasText(s, "@")
  {
    forall i: nat | i <= |s| ensures !StartsAt(s, "://", i) && !StartsAt(s, "@", i) {
      if i + 3 <= |s| {
        assert s[i..i + 3][0] == s[i] && s[i] in s && "://"[0] == ':';
      }
      if i + 1 <= |s| {
        assert s[i..i + 1][0] == s[i] && s[i] in s && "@"[0] == '@';
      }
    }
  }

  lemma CanonicalProviders(a: seq<string>)
    ensures Canonical(Declaring(a)) == Declaring(Sort(a, byText))
  {
  }

  lemma {:induction false} TextFrom(a: seq<Token>, b: seq<Token>, x: seq<Token>, y: seq<Token>)
    requires TextOf(a) == TextOf(b)
    ensures TextOf(x + (a + y)) == TextOf(x + (b + y))
  {
    TextJoins(a, y);
    TextJoins(b, y);
    TextJoins(x, a + y);
    TextJoins(x, b + y);
  }

  lemma CommaWords()
    ensures TextOf(Words(["a,b"])) == TextOf(Words(["a", "b"])) == "a,b,"
  {
    assert Words(["a,b"]) == [("a,b", ',')] && [("a,b", ',')][1..] == [];
    assert Words(["a", "b"]) == [("a", ','), ("b", ',')] && [("a", ','), ("b", ',')][1..] == [("b", ',')];
    assert [("b", ',')][1..] == [];
    assert TextOf([("b", ',')]) == "b,";
    assert "a" + "," + "b," == "a,b,";
  }

  lemma SortedAlready()
    ensures Sort(["a,b"], byText) == ["a,b"] && Sort(["a", "b"], byText) == ["a", "b"]
  {
    assert ["a,b"][1..] == [] && ["a", "b"][1..] == ["b"] && ["b"][1..] == [];
    assert Sort([], byText) == [] && Sort(["b"], byText) == ["b"];
    assert TextLe("a", "b");
  }

  lemma CommaTexts()
    ensures TextOf(Tokens(Declaring(["a,b"]))) == TextOf(Tokens(Declaring(["a", "b"])))
  {
    hide TextOf, Words, Tokens, ClaimsTokens, FromPolicies;
    var a, b := Declaring(["a,b"]), Declaring(["a", "b"]);
    CommaWords();
    TokensAre(a);
    TokensAre(b);
    assert FromPolicies(a) == FromPolicies(b) by { SameFromPolicies(); }
    TextFrom(Words(["a,b"]), Words(["a", "b"]), BeforeProviders(a), BeforeClaims(a) + (ClaimsTokens([]) + FromPolicies(a)));
  }

  lemma SameFromPolicies()
    ensures FromPolicies(Declaring(["a,b"])) == FromPolicies(Declaring(["a", "b"]))
  {
  }

  /** A provider named with a comma is written like two providers: different valid declarations, same bytes. */
  lemma CommaConfusesProviders()
    ensures Validates(Declaring(["a,b"])) && Validates(Declaring(["a", "b"]))
    ensures Canonical(Declaring(["a,b"])) != Canonical(Declaring(["a", "b"]))
    ensures BytesOf(Declaring(["a,b"])) == BytesOf(Declaring(["a", "b"]))
  {
    hide Validates, TextOf, Canonical, Sort, Encode, Tokens;
    NotBlank("a,b");
    NotBlank("a");
    NotBlank("b");
    assert "a"[0] != "b"[0];
    DeclaringValidates(["a,b"]);
    DeclaringValidates(["a", "b"]);
    CanonicalProviders(["a,b"]);
    CanonicalProviders(["a", "b"]);
    SortedAlready();
    CommaTexts();
    assert |["a,b"]| != |["a", "b"]|;
  }

  const EMPTY_RESOURCE := PolicyDef("a", false, Some(""), None, [])
  const RESOURCE_CLAIM := PolicyDef("a", false, None, None, [PolicyClaimCondition("resource", [])])

  function Ruling(p: PolicyDef): AuthConfig {
    Declaring(["a"]).(policies := [p])
  }

  lemma RulingValidates(p: PolicyDef)
    requires p.capability == "a"
    ensures Validates(Ruling(p)) && Canonical(Ruling(p)) == Ruling(p)
  {
    hide IsBlank, HasText;
    NotBlank("a");
    DeclaringValidates(["a"]);
    assert [p][1..] == [] && ["a"][1..] == [];
    assert Sort([], byCapability) == [] && Sort([p], byCapability) == [p];
    assert Sort([], byText) == [] && Sort(["a"], byText) == ["a"];
  }

  lemma EmptyTokens()
    ensures PoliciesTokens([EMPTY_RESOURCE]) == PoliciesTokens([RESOURCE_CLAIM])
  {
    var c := PolicyClaimCondition("resource", []);
    assert [EMPTY_RESOURCE][1..] == [] && [RESOURCE_CLAIM][1..] == [] && [c][1..] == [];
    assert Words([]) == [];
    assert ConditionsTokens([c]) == [("resource", '='), ("", ';')];
    assert FieldTokens("resource", Some("")) == [("resource", '='), ("", ';')];
  }

  lemma SameAfterPolicies(p: PolicyDef, q: PolicyDef)
    requires PoliciesTokens([p]) == PoliciesTokens([q])
    ensures Tokens(Ruling(p)) == Tokens(Ruling(q))
  {
    hide PoliciesTokens, UiTokens, ExperienceTokens, PasswordTokens, StorageTokens, MailTokens;
  }

  /** An empty resource is written like a condition without values on a claim named `resource`. */
  lemma EmptyConfusesResource()
    ensures Validates(Ruling(EMPTY_RESOURCE)) && Validates(Ruling(RESOURCE_CLAIM))
    ensures Canonical(Ruling(EMPTY_RESOURCE)) != Canonical(Ruling(RESOURCE_CLAIM))
    ensures BytesOf(Ruling(EMPTY_RESOURCE)) == BytesOf(Ruling(RESOURCE_CLAIM))
  {
    hide Validates, TextOf, Canonical, Encode, Tokens, PoliciesTokens;
    RulingValidates(EMPTY_RESOURCE);
    RulingValidates(RESOURCE_CLAIM);
    assert Ruling(EMPTY_RESOURCE).policies[0] != Ruling(RESOURCE_CLAIM).policies[0];
    EmptyTokens();
    SameAfterPolicies(EMPTY_RESOURCE, RESOURCE_CLAIM);
  }
}
