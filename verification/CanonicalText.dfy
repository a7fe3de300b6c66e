/** The bytes a canonical declaration is fingerprinted by, as tokens and as the writer produces them. */
module CanonicalText {
  import opened Prelude
  import opened Text
  import opened Utf8
  import opened Declaration

  // ----- Tokens -------------------------------------------------------------------------------------

  /** A word and the delimiter after it. */
  type Token = (string, char)

  predicate IsDelimiter(c: char) {
    c == ',' || c == ';' || c == ':' || c == '=' || c == '[' || c == ']'
  }

  predicate IsPlain(s: string) {
    forall c <- s :: !IsDelimiter(c)
  }

  function TextOf(tokens: seq<Token>): string {
    if tokens == [] then "" else tokens[0].0 + [tokens[0].1] + TextOf(tokens[1..])
  }

  predicate TokensOk(tokens: seq<Token>) {
    forall t <- tokens :: IsPlain(t.0) && IsDelimiter(t.1)
  }

  lemma {:induction false} TextJoins(a: seq<Token>, b: seq<Token>)
    ensures TextOf(a + b) == TextOf(a) + TextOf(b)
  {
    if a == [] {
      assert a + b == b;
    } else {
      assert (a + b)[1..] == a[1..] + b;
      TextJoins(a[1..], b);
    }
  }

  /** The length of the first word. */
  function WordLength(s: string): nat {
    if s == "" || IsDelimiter(s[0]) then 0 else 1 + WordLength(s[1..])
  }

  lemma {:induction false} WordLengthIs(word: string, d: char, rest: string)
    requires IsPlain(word) && IsDelimiter(d)
    ensures WordLength(word + [d] + rest) == |word|
  {
    if word != "" {
      assert (word + [d] + rest)[1..] == word[1..] + [d] + rest;
      assert word[0] in word;
      WordLengthIs(word[1..], d, rest);
    }
  }

  /** Tokens with plain words can be told from their text. */
  lemma {:induction false} TextDecidesTokens(a: seq<Token>, b: seq<Token>)
    requires TokensOk(a) && TokensOk(b) && TextOf(a) == TextOf(b)
    ensures a == b
  {
    hide IsPlain, IsDelimiter, WordLength;
    if a != [] && b != [] {
      var x, y := TextOf(a[1..]), TextOf(b[1..]);
      WordLengthIs(a[0].0, a[0].1, x);
      WordLengthIs(b[0].0, b[0].1, y);
      SameFront(a[0].0, a[0].1, x, b[0].0, b[0].1, y);
      TextDecidesTokens(a[1..], b[1..]);
      assert a == [a[0]] + a[1..] && b == [b[0]] + b[1..];
    }
  }

  lemma SameFront(a: string, c: char, x: string, b: string, d: char, y: string)
    requires |a| == |b| && a + [c] + x == b + [d] + y
    ensures a == b && c == d && x == y
  {
    var s, t := a + [c] + x, b + [d] + y;
    assert s[..|a|] == a && t[..|b|] == b;
    assert s[|a|] == c && t[|b|] == d;
    assert s[|a| + 1..] == x && t[|b| + 1..] == y;
  }

  // ----- What is written ----------------------------------------------------------------------------

  function BoolText(b: bool): string {
    if b then "true" else "false"
  }

  function IsolationText(i: IsolationMode): string {
    match i
    case Strict => "Strict"
    case SharedStorageWithPolicy => "SharedStorageWithPolicy"
  }

  function RendererText(r: Renderer): string {
    match r
    case Generated => "generated"
    case Embedded => "embedded"
    case Headless => "headless"
    case CustomRenderer => "custom"
  }

  function ModeText(m: UiMode): string {
    match m
    case DefaultMode => "default"
    case CustomMode => "custom"
  }

  function ScreenText(s: UiScreen): string {
    match s
    case Login => "login"
    case Signup => "signup"
    case Account => "account"
    case PasswordForgot => "password_forgot"
    case PasswordReset => "password_reset"
    case PasswordChange => "password_change"
    case EmailVerification => "email_verification"
    case AccountLinks => "account_links"
    case Profile => "profile"
    case Devices => "devices"
    case Sessions => "sessions"
    case Mfa => "mfa"
    case Passkeys => "passkeys"
    case Recovery => "recovery"
    case TenantScreen => "tenant"
    case Agents => "agents"
  }

  function StateText(s: ExperienceState): string {
    match s
    case Disabled => "disabled"
    case Enabled => "enabled"
    case Required => "required"
    case AdminOnly => "admin_only"
  }

  function Words(words: seq<string>): seq<Token> {
    seq(|words|, i requires 0 <= i < |words| => (words[i], ','))
  }

  function KindTokens(kind: ClaimKind): seq<Token> {
    match kind
    case EnumKind(values) => [("enum", '[')] + (Words(values) + [("", ']'), ("", ';')])
    case StringKind => [("string", ';')]
    case IntegerKind => [("integer", ';')]
    case BooleanKind => [("boolean", ';')]
  }

  function ClaimsTokens(claims: seq<ClaimDef>): seq<Token> {
    if claims == [] then []
    else [(claims[0].name, ':')] + (KindTokens(claims[0].kind) + ClaimsTokens(claims[1..]))
  }

  function FieldTokens(name: string, value: Option<string>): seq<Token> {
    if value.Some? then [(name, '='), (value.value, ';')] else []
  }

  function ConditionsTokens(conditions: seq<PolicyClaimCondition>): seq<Token> {
    if conditions == [] then []
    else [(conditions[0].claim, '=')] + (Words(conditions[0].values) + ([("", ';')] + ConditionsTokens(conditions[1..])))
  }

  function Current(tenantCurrent: bool): Option<string> {
    if tenantCurrent then Some("current") else None
  }

  function PoliciesTokens(policies: seq<PolicyDef>): seq<Token> {
    if policies == [] then []
    else
      var p := policies[0];
      [(p.capability, ':')] +
      (FieldTokens("tenant", Current(p.tenantCurrent)) +
       (FieldTokens("resource", p.resource) +
        (FieldTokens("action", p.action) + (ConditionsTokens(p.claims) + PoliciesTokens(policies[1..])))))
  }

  function ScreensTokens(screens: seq<UiScreenOverride>): seq<Token> {
    if screens == [] then []
    else [(ScreenText(screens[0].screen), '='), (ModeText(screens[0].mode), ',')] + ScreensTokens(screens[1..])
  }

  function UiTokens(ui: AuthUiConfig): seq<Token> {
    [("ui", '='), ("mode", ':'), (RendererText(ui.renderer), ';'), ("theme", ':'), (ui.theme, ';'), ("screens", ':')] +
    (ScreensTokens(ui.screens) + [("", ';')])
  }

  /** `name:value` and a closing mark, for each pair. */
  function LabelTokens(pairs: seq<(string, string)>, close: char): seq<Token> {
    if pairs == [] then []
    else [(pairs[0].0, ':'), (pairs[0].1, close)] + LabelTokens(pairs[1..], close)
  }

  function SignExperience(e: AuthExperience): seq<(string, string)> {
    [("sign_in", StateText(e.signIn)), ("sign_up", StateText(e.signUp)), ("sign_out", StateText(e.signOut)),
     ("password", StateText(e.password)), ("password_reset", StateText(e.passwordReset)),
     ("password_change", StateText(e.passwordChange))]
  }

  function IdentityExperience(e: AuthExperience): seq<(string, string)> {
    [("external_identity", StateText(e.externalIdentity)), ("account_linking", StateText(e.accountLinking)),
     ("email_verification", StateText(e.emailVerification)), ("mfa", StateText(e.mfa)), ("passkeys", StateText(e.passkeys))]
  }

  function AccountExperience(e: AuthExperience): seq<(string, string)> {
    [("device_management", StateText(e.deviceManagement)), ("session_management", StateText(e.sessionManagement)),
     ("profile", StateText(e.profile)), ("tenant_switching", StateText(e.tenantSwitching)),
     ("recovery", StateText(e.recovery))]
  }

  /** Every experience capability and its state. */
  function Exposed(e: AuthExperience): seq<(string, string)> {
    SignExperience(e) + IdentityExperience(e) + AccountExperience(e)
  }

  function ExperienceTokens(e: AuthExperience): seq<Token> {
    [("experience", '=')] + (LabelTokens(Exposed(e), ',') + [("", ';')])
  }

  function DaysText(days: Option<nat>): string {
    if days.Some? then Decimal(days.value) else "null"
  }

  function PasswordParts(p: PasswordPolicy): seq<(string, string)> {
    [("min", Decimal(p.minLength)), ("max", Decimal(p.maxLength)), ("upper", BoolText(p.requireUppercase)),
     ("lower", BoolText(p.requireLowercase)), ("number", BoolText(p.requireNumber)),
     ("special", BoolText(p.requireSpecialCharacter)), ("expiration", DaysText(p.expirationDays)),
     ("history", Decimal(p.historyCount)), ("change", BoolText(p.allowChange)), ("reset", BoolText(p.allowReset))]
  }

  function PasswordTokens(p: PasswordPolicy): seq<Token> {
    [("pwd_policy", '=')] + LabelTokens(PasswordParts(p), ';')
  }

  function StorageTokens(s: StorageConfig): seq<Token> {
    [("storage", '='), ("authority", ':'), (s.authority, ','), ("audit", ':'), (s.audit, ','), ("reporting", ':'),
     (s.reporting, ';')]
  }

  function EntriesTokens(kind: string, entries: seq<(string, string)>): seq<Token> {
    if entries == [] then []
    else [(kind, ':'), (entries[0].0, '='), (entries[0].1, ';')] + EntriesTokens(kind, entries[1..])
  }

  function MailTokens(mail: Option<MailConfig>): seq<Token> {
    if mail.None? then []
    else [("mail", '=')] + (EntriesTokens("identity", mail.value.identities) + EntriesTokens("template", mail.value.templates))
  }

  function Tokens(c: AuthConfig): seq<Token> {
    [("multi_tenant", '='), (BoolText(c.multiTenant), ';'), ("providers", '=')] +
    (Words(c.providers) +
     ([("", ';'), ("isolation", '='), (IsolationText(c.isolation), ';'), ("claims", '=')] +
      (ClaimsTokens(c.claims) +
       ([("agents", '='), (BoolText(c.agents), ';'), ("policies", '=')] +
        (PoliciesTokens(c.policies) +
         (UiTokens(c.ui) +
          (ExperienceTokens(c.experience) +
           (PasswordTokens(c.passwordPolicy) +
            (StorageTokens(c.storage) + MailTokens(c.mail))))))))))
  }

  /** What the fingerprint is a digest of. */
  function TextWritten(c: AuthConfig): string {
    TextOf(Tokens(Canonical(c)))
  }

  function BytesOf(c: AuthConfig): seq<byte> {
    Encode(TextWritten(c))
  }

  lemma Regroup(first: Token, w: seq<Token>, e: seq<Token>, x: seq<Token>)
    ensures var s := ([first] + (w + e)) + x; s != [] && s[0] == first && s[1..] == w + (e + x)
  {
  }

  lemma RegroupTwice(first: Token, w: seq<Token>, e: seq<Token>, t: seq<Token>, x: seq<Token>)
    ensures var s := ([first] + (w + (e + t))) + x; s != [] && s[0] == first && s[1..] == w + (e + (t + x))
  {
    Regroup(first, w, e + t, x);
    assert (e + t) + x == e + (t + x);
  }

  function UiHead(ui: AuthUiConfig): seq<Token> {
    [("ui", '='), ("mode", ':'), (RendererText(ui.renderer), ';'), ("theme", ':'), (ui.theme, ';'), ("screens", ':')]
  }

  function AfterUi(c: AuthConfig): seq<Token> {
    ExperienceTokens(c.experience) + (PasswordTokens(c.passwordPolicy) + (StorageTokens(c.storage) + MailTokens(c.mail)))
  }

  function BeforeProviders(c: AuthConfig): seq<Token> {
    [("multi_tenant", '='), (BoolText(c.multiTenant), ';'), ("providers", '=')]
  }

  function BeforeClaims(c: AuthConfig): seq<Token> {
    [("", ';'), ("isolation", '='), (IsolationText(c.isolation), ';'), ("claims", '=')]
  }

  function BeforePolicies(c: AuthConfig): seq<Token> {
    [("agents", '='), (BoolText(c.agents), ';'), ("policies", '=')]
  }

  function FromPolicies(c: AuthConfig): seq<Token> {
    BeforePolicies(c) + (PoliciesTokens(c.policies) + (UiTokens(c.ui) + AfterUi(c)))
  }

  lemma TokensAre(c: AuthConfig)
    ensures Tokens(c) == BeforeProviders(c) + (Words(c.providers) + (BeforeClaims(c) + (ClaimsTokens(c.claims) + FromPolicies(c))))
  {
  }

  lemma NoPolicies(x: seq<Token>)
    ensures PoliciesTokens([]) + x == x
  {
  }

  // ----- The writer ---------------------------------------------------------------------------------

  lemma TextStep(t: Token, rest: seq<Token>)
    ensures TextOf([t] + rest) == t.0 + [t.1] + TextOf(rest)
    ensures TextOf([t]) == t.0 + [t.1]
  {
    assert ([t] + rest)[1..] == rest && [t][1..] == [];
  }

  method WriteWords(out: string, words: seq<string>) returns (r: string)
    ensures r == out + TextOf(Words(words))
  {
    r := out;
    assert TextOf(Words([])) == "" && words[..0] == [];
    for i := 0 to |words|
      invariant r == out + TextOf(Words(words[..i]))
    {
      assert Words(words[..i + 1]) == Words(words[..i]) + [(words[i], ',')];
      TextJoins(Words(words[..i]), [(words[i], ',')]);
      TextStep((words[i], ','), []);
      r := r + words[i] + ",";
    }
    assert words[..|words|] == words;
  }

  method WriteKind(out: string, kind: ClaimKind) returns (r: string)
    ensures r == out + TextOf(KindTokens(kind))
  {
    hide Words;
    match kind {
      case EnumKind(values) =>
        r := WriteWords(out + "enum[", values);
        var end: seq<Token> := [("", ']'), ("", ';')];
        TextStep(("enum", '['), Words(values) + end);
        TextJoins(Words(values), end);
        TextStep(("", ']'), [("", ';')]);
        TextStep(("", ';'), []);
        assert end == [("", ']')] + [("", ';')];
        r := r + "];";
      case StringKind => TextStep(("string", ';'), []); r := out + "string;";
      case IntegerKind => TextStep(("integer", ';'), []); r := out + "integer;";
      case BooleanKind => TextStep(("boolean", ';'), []); r := out + "boolean;";
    }
  }

  method WriteClaims(out: string, claims: seq<ClaimDef>) returns (r: string)
    ensures r == out + TextOf(ClaimsTokens(claims))
  {
    hide KindTokens;
    r := out;
    assert claims[0..] == claims;
    for i := 0 to |claims|
      invariant r + TextOf(ClaimsTokens(claims[i..])) == out + TextOf(ClaimsTokens(claims))
    {
      var rest := claims[i..];
      assert rest[0] == claims[i] && rest[1..] == claims[i + 1..];
      TextStep((claims[i].name, ':'), KindTokens(claims[i].kind) + ClaimsTokens(rest[1..]));
      TextJoins(KindTokens(claims[i].kind), ClaimsTokens(rest[1..]));
      r := r + claims[i].name + ":";
      r := WriteKind(r, claims[i].kind);
    }
    assert claims[|claims|..] == [];
  }

  method WriteField(out: string, name: string, value: Option<string>) returns (r: string)
    ensures r == out + TextOf(FieldTokens(name, value))
  {
    r := out;
    if value.Some? {
      TextStep((name, '='), [(value.value, ';')]);
      TextStep((value.value, ';'), []);
      assert FieldTokens(name, value) == [(name, '=')] + [(value.value, ';')];
      r := r + name + "=" + value.value + ";";
    }
  }

  method WriteConditions(out: string, conditions: seq<PolicyClaimCondition>) returns (r: string)
    ensures r == out + TextOf(ConditionsTokens(conditions))
  {
    hide Words;
    r := out;
    assert conditions[0..] == conditions;
    for i := 0 to |conditions|
      invariant r + TextOf(ConditionsTokens(conditions[i..])) == out + TextOf(ConditionsTokens(conditions))
    {
      var rest, c := conditions[i..], conditions[i];
      assert rest[0] == c && rest[1..] == conditions[i + 1..];
      var tail := ConditionsTokens(rest[1..]);
      TextStep((c.claim, '='), Words(c.values) + ([("", ';')] + tail));
      TextJoins(Words(c.values), [("", ';')] + tail);
      TextStep(("", ';'), tail);
      r := r + c.claim + "=";
      r := WriteWords(r, c.values);
      r := r + ";";
    }
    assert conditions[|conditions|..] == [];
  }

  /** One policy as written. */
  function PolicyText(p: PolicyDef): string {
    p.capability + ":" + TextOf(FieldTokens("tenant", Current(p.tenantCurrent))) + TextOf(FieldTokens("resource", p.resource)) +
    TextOf(FieldTokens("action", p.action)) + TextOf(ConditionsTokens(p.claims))
  }

  method WritePolicy(out: string, p: PolicyDef) returns (r: string)
    ensures r == out + PolicyText(p)
  {
    hide FieldTokens, ConditionsTokens, TextOf;
    r := out + p.capability + ":";
    r := WriteField(r, "tenant", Current(p.tenantCurrent));
    r := WriteField(r, "resource", p.resource);
    r := WriteField(r, "action", p.action);
    r := WriteConditions(r, p.claims);
  }

  method WritePolicies(out: string, policies: seq<PolicyDef>) returns (r: string)
    ensures r == out + TextOf(PoliciesTokens(policies))
  {
    hide PoliciesTokens, PolicyText;
    r := out;
    assert policies[0..] == policies;
    for i := 0 to |policies|
      invariant r + TextOf(PoliciesTokens(policies[i..])) == out + TextOf(PoliciesTokens(policies))
    {
      PolicyTextFirst(policies[i..]);
      assert policies[i..][0] == policies[i] && policies[i..][1..] == policies[i + 1..];
      r := WritePolicy(r, policies[i]);
    }
    assert policies[|policies|..] == [];
    NoPolicies([]);
    assert PoliciesTokens([]) + [] == PoliciesTokens([]);
  }

  lemma PolicyTextFirst(policies: seq<PolicyDef>)
    requires policies != []
    ensures TextOf(PoliciesTokens(policies)) == PolicyText(policies[0]) + TextOf(PoliciesTokens(policies[1..]))
  {
    hide FieldTokens, ConditionsTokens, TextOf;
    var p := policies[0];
    var p3 := ConditionsTokens(p.claims) + PoliciesTokens(policies[1..]);
    var p2 := FieldTokens("action", p.action) + p3;
    var p1 := FieldTokens("resource", p.resource) + p2;
    TextStep((p.capability, ':'), FieldTokens("tenant", Current(p.tenantCurrent)) + p1);
    TextJoins(FieldTokens("tenant", Current(p.tenantCurrent)), p1);
    TextJoins(FieldTokens("resource", p.resource), p2);
    TextJoins(FieldTokens("action", p.action), p3);
    TextJoins(ConditionsTokens(p.claims), PoliciesTokens(policies[1..]));
  }

  lemma ScreenFirst(screens: seq<UiScreenOverride>)
    requires screens != []
    ensures TextOf(ScreensTokens(screens)) ==
            ScreenText(screens[0].screen) + "=" + ModeText(screens[0].mode) + "," + TextOf(ScreensTokens(screens[1..]))
  {
    hide ScreenText, ModeText, TextOf;
    var first, second := (ScreenText(screens[0].screen), '='), (ModeText(screens[0].mode), ',');
    assert ScreensTokens(screens) == [first, second] + ScreensTokens(screens[1..]);
    TextJoins([first, second], ScreensTokens(screens[1..]));
    TextTwo(first, second);
  }

  method WriteScreens(out: string, screens: seq<UiScreenOverride>) returns (r: string)
    ensures r == out + TextOf(ScreensTokens(screens))
  {
    hide ScreenText, ModeText, TextOf;
    r := out;
    assert screens[0..] == screens;
    for i := 0 to |screens|
      invariant r + TextOf(ScreensTokens(screens[i..])) == out + TextOf(ScreensTokens(screens))
    {
      ScreenFirst(screens[i..]);
      assert screens[i..][0] == screens[i] && screens[i..][1..] == screens[i + 1..];
      r := r + (ScreenText(screens[i].screen) + "=" + ModeText(screens[i].mode) + ",");
    }
    assert screens[|screens|..] == [];
    NothingWritten();
  }

  method WriteLabels(out: string, pairs: seq<(string, string)>, close: char) returns (r: string)
    ensures r == out + TextOf(LabelTokens(pairs, close))
  {
    r := out;
    assert pairs[0..] == pairs;
    for i := 0 to |pairs|
      invariant r + TextOf(LabelTokens(pairs[i..], close)) == out + TextOf(LabelTokens(pairs, close))
    {
      var rest := pairs[i..];
      assert rest[0] == pairs[i] && rest[1..] == pairs[i + 1..];
      var second := [(pairs[i].1, close)] + LabelTokens(rest[1..], close);
      assert LabelTokens(rest, close) == [(pairs[i].0, ':')] + second;
      TextStep((pairs[i].0, ':'), second);
      TextStep((pairs[i].1, close), LabelTokens(rest[1..], close));
      r := r + pairs[i].0 + ":" + pairs[i].1 + [close];
    }
    assert pairs[|pairs|..] == [];
  }

  lemma EntryFirst(kind: string, entries: seq<(string, string)>)
    requires entries != []
    ensures TextOf(EntriesTokens(kind, entries)) ==
            kind + ":" + entries[0].0 + "=" + entries[0].1 + ";" + TextOf(EntriesTokens(kind, entries[1..]))
  {
    hide TextOf;
    var head: seq<Token> := [(kind, ':'), (entries[0].0, '='), (entries[0].1, ';')];
    assert EntriesTokens(kind, entries) == head + EntriesTokens(kind, entries[1..]);
    TextJoins(head, EntriesTokens(kind, entries[1..]));
    TextThree((kind, ':'), (entries[0].0, '='), (entries[0].1, ';'));
  }

  method WriteEntries(out: string, kind: string, entries: seq<(string, string)>) returns (r: string)
    ensures r == out + TextOf(EntriesTokens(kind, entries))
  {
    hide TextOf;
    r := out;
    assert entries[0..] == entries;
    for i := 0 to |entries|
      invariant r + TextOf(EntriesTokens(kind, entries[i..])) == out + TextOf(EntriesTokens(kind, entries))
    {
      EntryFirst(kind, entries[i..]);
      assert entries[i..][0] == entries[i] && entries[i..][1..] == entries[i + 1..];
      r := r + (kind + ":" + entries[i].0 + "=" + entries[i].1 + ";");
    }
    assert entries[|entries|..] == [];
    NothingWritten();
  }

  lemma TextTwo(a: Token, b: Token)
    ensures TextOf([a, b]) == a.0 + [a.1] + b.0 + [b.1]
  {
    assert [a, b] == [a] + [b];
    TextStep(a, [b]);
    TextStep(b, []);
  }

  lemma TextThree(a: Token, b: Token, c: Token)
    ensures TextOf([a, b, c]) == a.0 + [a.1] + b.0 + [b.1] + c.0 + [c.1]
  {
    assert [a, b, c] == [a] + [b, c];
    TextStep(a, [b, c]);
    TextTwo(b, c);
  }

  lemma ProvidersHeadText(c: AuthConfig)
    ensures TextOf(BeforeProviders(c)) == "multi_tenant=" + BoolText(c.multiTenant) + ";providers="
  {
    hide BoolText, TextOf;
    TextThree(("multi_tenant", '='), (BoolText(c.multiTenant), ';'), ("providers", '='));
  }

  lemma PoliciesHeadText(c: AuthConfig)
    ensures TextOf(BeforePolicies(c)) == "agents=" + BoolText(c.agents) + ";policies="
  {
    hide BoolText, TextOf;
    TextThree(("agents", '='), (BoolText(c.agents), ';'), ("policies", '='));
  }

  lemma ClaimsHeadText(c: AuthConfig)
    ensures TextOf(BeforeClaims(c)) == ";isolation=" + IsolationText(c.isolation) + ";claims="
  {
    hide IsolationText, TextOf;
    var tail: seq<Token> := [("isolation", '='), (IsolationText(c.isolation), ';'), ("claims", '=')];
    assert BeforeClaims(c) == [("", ';')] + tail;
    TextStep(("", ';'), tail);
    TextThree(("isolation", '='), (IsolationText(c.isolation), ';'), ("claims", '='));
  }

  method WriteUi(out: string, ui: AuthUiConfig) returns (r: string)
    ensures r == out + TextOf(UiTokens(ui))
  {
    hide ScreensTokens, RendererText;
    r := out + "ui=mode:" + RendererText(ui.renderer) + ";theme:" + ui.theme + ";screens:";
    r := WriteScreens(r, ui.screens);
    r := r + ";";
    var end: seq<Token> := [("", ';')];
    TextJoins(UiHead(ui), ScreensTokens(ui.screens) + end);
    TextJoins(ScreensTokens(ui.screens), end);
    TextStep(("", ';'), []);
    UiHeadText(ui);
  }

  lemma UiHeadText(ui: AuthUiConfig)
    ensures TextOf(UiHead(ui)) == "ui=mode:" + RendererText(ui.renderer) + ";theme:" + ui.theme + ";screens:"
  {
    hide RendererText, TextOf;
    var first: seq<Token> := [("ui", '='), ("mode", ':'), (RendererText(ui.renderer), ';')];
    var second: seq<Token> := [("theme", ':'), (ui.theme, ';'), ("screens", ':')];
    assert UiHead(ui) == first + second;
    TextJoins(first, second);
    TextThree(("ui", '='), ("mode", ':'), (RendererText(ui.renderer), ';'));
    TextThree(("theme", ':'), (ui.theme, ';'), ("screens", ':'));
  }

  method WriteExperience(out: string, e: AuthExperience) returns (r: string)
    ensures r == out + TextOf(ExperienceTokens(e))
  {
    hide LabelTokens, Exposed;
    r := WriteLabels(out + "experience=", Exposed(e), ',');
    r := r + ";";
    TextStep(("experience", '='), LabelTokens(Exposed(e), ',') + [("", ';')]);
    TextJoins(LabelTokens(Exposed(e), ','), [("", ';')]);
    TextStep(("", ';'), []);
  }

  method WritePassword(out: string, p: PasswordPolicy) returns (r: string)
    ensures r == out + TextOf(PasswordTokens(p))
  {
    hide LabelTokens, PasswordParts;
    r := WriteLabels(out + "pwd_policy=", PasswordParts(p), ';');
    TextStep(("pwd_policy", '='), LabelTokens(PasswordParts(p), ';'));
  }

  lemma StorageWords()
    ensures "storage" + ['='] + "authority" + [':'] == "storage=authority:"
    ensures "audit" + [':'] == "audit:" && "reporting" + [':'] == "reporting:"
  {
  }

  lemma StorageText(s: StorageConfig)
    ensures TextOf(StorageTokens(s)) ==
            ("storage=authority:" + s.authority + ",") + (("audit:" + s.audit + ",") + ("reporting:" + s.reporting + ";"))
  {
    hide TextOf;
    var first: seq<Token> := [("storage", '='), ("authority", ':'), (s.authority, ',')];
    var second: seq<Token> := [("audit", ':'), (s.audit, ',')];
    var third: seq<Token> := [("reporting", ':'), (s.reporting, ';')];
    StorageSplits(s);
    hide StorageTokens;
    StorageWords();
    TextJoins(first, second + third);
    TextJoins(second, third);
    TextThree(("storage", '='), ("authority", ':'), (s.authority, ','));
    TextTwo(("audit", ':'), (s.audit, ','));
    TextTwo(("reporting", ':'), (s.reporting, ';'));
  }

  lemma StorageSplits(s: StorageConfig)
    ensures StorageTokens(s) ==
            [("storage", '='), ("authority", ':'), (s.authority, ',')] +
            ([("audit", ':'), (s.audit, ',')] + [("reporting", ':'), (s.reporting, ';')])
  {
  }

  method WriteStorage(out: string, s: StorageConfig) returns (r: string)
    ensures r == out + TextOf(StorageTokens(s))
  {
    hide TextOf, StorageTokens;
    StorageText(s);
    r := out + (("storage=authority:" + s.authority + ",") + (("audit:" + s.audit + ",") + ("reporting:" + s.reporting + ";")));
  }

  method WriteMail(out: string, mail: Option<MailConfig>) returns (r: string)
    ensures r == out + TextOf(MailTokens(mail))
  {
    hide EntriesTokens, TextOf;
    r := out;
    if mail.None? {
      NothingWritten();
    } else {
      r := WriteEntries(r + "mail=", "identity", mail.value.identities);
      r := WriteEntries(r, "template", mail.value.templates);
      MailText(mail.value);
    }
  }

  lemma NothingWritten()
    ensures TextOf([]) == ""
  {
  }

  lemma MailText(m: MailConfig)
    ensures TextOf(MailTokens(Some(m))) ==
            "mail=" + TextOf(EntriesTokens("identity", m.identities)) + TextOf(EntriesTokens("template", m.templates))
  {
    hide EntriesTokens, TextOf;
    var w, e := EntriesTokens("identity", m.identities), EntriesTokens("template", m.templates);
    TextStep(("mail", '='), w + e);
    TextJoins(w, e);
  }

  /** Everything after the policies. */
  method WriteTail(out: string, c: AuthConfig) returns (r: string)
    ensures r == out + TextOf(UiTokens(c.ui) + AfterUi(c))
  {
    hide UiTokens, ExperienceTokens, PasswordTokens, StorageTokens, MailTokens, TextOf;
    r := WriteUi(out, c.ui);
    r := WriteExperience(r, c.experience);
    r := WritePassword(r, c.passwordPolicy);
    r := WriteStorage(r, c.storage);
    r := WriteMail(r, c.mail);
    TextJoins(UiTokens(c.ui), AfterUi(c));
    TextJoins(ExperienceTokens(c.experience), PasswordTokens(c.passwordPolicy) + (StorageTokens(c.storage) + MailTokens(c.mail)));
    TextJoins(PasswordTokens(c.passwordPolicy), StorageTokens(c.storage) + MailTokens(c.mail));
    TextJoins(StorageTokens(c.storage), MailTokens(c.mail));
  }

  /** Writes a declaration part after part; the bytes are those of the text. */
  method WriteCanonical(c: AuthConfig) returns (out: seq<byte>)
    ensures out == Encode(TextOf(Tokens(c)))
  {
    hide Words, ClaimsTokens, PoliciesTokens, UiTokens, AfterUi, TextOf, Encode, Tokens, BoolText, IsolationText;
    hide BeforeProviders, BeforeClaims, BeforePolicies;
    var r := "multi_tenant=" + BoolText(c.multiTenant) + ";providers=";
    r := WriteWords(r, c.providers);
    r := r + (";isolation=" + IsolationText(c.isolation) + ";claims=");
    r := WriteClaims(r, c.claims);
    r := r + ("agents=" + BoolText(c.agents) + ";policies=");
    r := WritePolicies(r, c.policies);
    r := WriteTail(r, c);
    ProvidersHeadText(c);
    ClaimsHeadText(c);
    PoliciesHeadText(c);
    WholeText(c);
    out := Encode(r);
  }

  lemma WholeText(c: AuthConfig)
    ensures TextOf(Tokens(c)) ==
            TextOf(BeforeProviders(c)) + TextOf(Words(c.providers)) + TextOf(BeforeClaims(c)) + TextOf(ClaimsTokens(c.claims)) +
            TextOf(BeforePolicies(c)) + TextOf(PoliciesTokens(c.policies)) + TextOf(UiTokens(c.ui) + AfterUi(c))
  {
    hide Words, ClaimsTokens, PoliciesTokens, UiTokens, AfterUi, TextOf, Tokens, BeforeProviders, BeforeClaims, BeforePolicies;
    TokensAre(c);
    var s4 := PoliciesTokens(c.policies) + (UiTokens(c.ui) + AfterUi(c));
    var s3 := ClaimsTokens(c.claims) + FromPolicies(c);
    var s2 := Words(c.providers) + (BeforeClaims(c) + s3);
    TextJoins(BeforeProviders(c), s2);
    TextJoins(Words(c.providers), BeforeClaims(c) + s3);
    TextJoins(BeforeClaims(c), s3);
    TextJoins(ClaimsTokens(c.claims), FromPolicies(c));
    TextJoins(BeforePolicies(c), s4);
    TextJoins(PoliciesTokens(c.policies), UiTokens(c.ui) + AfterUi(c));
  }
}
