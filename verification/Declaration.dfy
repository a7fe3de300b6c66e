/** The declared auth contract and its canonical form. */
module Declaration {
  import opened Prelude
  import opened Sorting
  import opened Text

  datatype PasswordPolicy = PasswordPolicy(
    minLength: nat, maxLength: nat, requireUppercase: bool, requireLowercase: bool, requireNumber: bool,
    requireSpecialCharacter: bool, expirationDays: Option<nat>, historyCount: nat,
    allowChange: bool, allowReset: bool)
  {
    predicate IsValid() {
      1 <= minLength <= maxLength
    }
  }

  datatype ClaimKind = EnumKind(values: seq<string>) | StringKind | IntegerKind | BooleanKind

  datatype ClaimDef = ClaimDef(name: string, kind: ClaimKind)

  datatype PolicyClaimCondition = PolicyClaimCondition(claim: string, values: seq<string>)

  datatype PolicyDef = PolicyDef(
    capability: string, tenantCurrent: bool, resource: Option<string>, action: Option<string>,
    claims: seq<PolicyClaimCondition>)

  datatype IsolationMode = Strict | SharedStorageWithPolicy

  datatype UiMode = DefaultMode | CustomMode

  datatype Renderer = Generated | Embedded | Headless | CustomRenderer

  datatype UiScreen =
    | Login | Signup | Account | PasswordForgot | PasswordReset | PasswordChange | EmailVerification
    | AccountLinks | Profile | Devices | Sessions | Mfa | Passkeys | Recovery | TenantScreen | Agents
  {
    function Rank(): nat {
      match this
      case Login => 0 case Signup => 1 case Account => 2 case PasswordForgot => 3 case PasswordReset => 4
      case PasswordChange => 5 case EmailVerification => 6 case AccountLinks => 7 case Profile => 8
      case Devices => 9 case Sessions => 10 case Mfa => 11 case Passkeys => 12 case Recovery => 13
      case TenantScreen => 14 case Agents => 15
    }
  }

  datatype UiScreenOverride = UiScreenOverride(screen: UiScreen, mode: UiMode)
  {
    function Rank(): nat {
      2 * screen.Rank() + if mode == CustomMode then 1 else 0
    }
  }

  datatype AuthUiConfig = AuthUiConfig(renderer: Renderer, mode: UiMode, theme: string, screens: seq<UiScreenOverride>)

  datatype ExperienceState = Disabled | Enabled | Required | AdminOnly

  datatype AuthExperience = AuthExperience(
    signIn: ExperienceState, signUp: ExperienceState, signOut: ExperienceState, password: ExperienceState,
    passwordReset: ExperienceState, passwordChange: ExperienceState, externalIdentity: ExperienceState,
    accountLinking: ExperienceState, emailVerification: ExperienceState, mfa: ExperienceState,
    passkeys: ExperienceState, deviceManagement: ExperienceState, sessionManagement: ExperienceState,
    profile: ExperienceState, tenantSwitching: ExperienceState, recovery: ExperienceState)

  datatype StorageConfig = StorageConfig(authority: string, audit: string, reporting: string)

  /** The entries of two ordered maps, by ascending name. */
  datatype MailConfig = MailConfig(identities: seq<(string, string)>, templates: seq<(string, string)>)

  datatype AuthConfig = AuthConfig(
    multiTenant: bool, providers: seq<string>, claims: seq<ClaimDef>, isolation: IsolationMode, agents: bool,
    policies: seq<PolicyDef>, ui: AuthUiConfig, experience: AuthExperience, passwordPolicy: PasswordPolicy,
    storage: StorageConfig, mail: Option<MailConfig>)

  /** The parts of `validate` that speak about repetition. */
  ghost predicate IsValid(c: AuthConfig) {
    && c.providers != [] && Distinct(c.providers)
    && (forall i, j :: 0 <= i < j < |c.claims| ==> c.claims[i].name != c.claims[j].name)
    && (forall d <- c.claims :: d.kind.EnumKind? ==> d.kind.values != [] && Distinct(d.kind.values))
    && (forall i, j :: 0 <= i < j < |c.policies| ==> c.policies[i].capability != c.policies[j].capability)
    && (forall i, j :: 0 <= i < j < |c.ui.screens| ==> c.ui.screens[i].screen != c.ui.screens[j].screen)
    && c.passwordPolicy.IsValid()
  }

  /** The whole of `validate`. */
  ghost predicate Validates(c: AuthConfig) {
    && IsValid(c)
    && (forall p <- c.providers :: !IsBlank(p))
    && (forall d <- c.claims :: !IsBlank(d.name))
    && (forall p <- c.policies :: !IsBlank(p.capability))
    && !IsBlank(c.ui.theme)
    && !(c.experience.signIn == Disabled && c.experience.signUp == Disabled)
    && (forall provider <- [c.storage.authority, c.storage.audit, c.storage.reporting] ::
          !IsBlank(provider) && !HasText(provider, "://") && !HasText(provider, "@"))
    && (c.mail.Some? ==>
          && (exists e <- c.mail.value.identities :: e.0 == "auth")
          && (exists e <- c.mail.value.templates :: e.0 == "password_reset")
          && (exists e <- c.mail.value.templates :: e.0 == "email_verification"))
  }

  // ----- Canonical form -------------------------------------------------------------------------

  const byText := (a: string, b: string) => TextLe(a, b)
  const byName := (a: ClaimDef, b: ClaimDef) => TextLe(a.name, b.name)
  const byCapability := (a: PolicyDef, b: PolicyDef) => TextLe(a.capability, b.capability)
  const byRank := (a: UiScreenOverride, b: UiScreenOverride) => a.Rank() <= b.Rank()

  function CanonicalClaim(d: ClaimDef): ClaimDef {
    if d.kind.EnumKind? then d.(kind := EnumKind(Sort(d.kind.values, byText))) else d
  }

  function CanonicalEach(claims: seq<ClaimDef>): (r: seq<ClaimDef>)
    ensures |r| == |claims|
    ensures forall i :: 0 <= i < |claims| ==> r[i] == CanonicalClaim(claims[i])
  {
    if claims == [] then [] else [CanonicalClaim(claims[0])] + CanonicalEach(claims[1..])
  }

  function Dedup<T(==)>(s: seq<T>): seq<T> {
    if |s| <= 1 then s
    else if s[0] == s[1] then Dedup(s[1..])
    else [s[0]] + Dedup(s[1..])
  }

  function CanonicalUi(ui: AuthUiConfig): AuthUiConfig {
    var screens := Dedup(Sort(ui.screens, byRank));
    var mode := if exists o <- screens :: o.mode == CustomMode then CustomMode else DefaultMode;
    ui.(mode := mode, screens := screens)
  }

  function Canonical(c: AuthConfig): AuthConfig {
    c.(providers := Sort(c.providers, byText),
       claims := CanonicalEach(Sort(c.claims, byName)),
       policies := Sort(c.policies, byCapability),
       ui := CanonicalUi(c.ui))
  }

  // ----- Canonicalising twice changes nothing -----------------------------------------------------

  lemma Orders()
    ensures TotalPreorder(byText) && TotalPreorder(byName) && TotalPreorder(byCapability) && TotalPreorder(byRank)
  {
    assert TotalPreorder(byText) by {
      forall x, y, z
        ensures byText(x, y) || byText(y, x)
        ensures byText(x, y) && byText(y, z) ==> byText(x, z)
      {
        TextTotal(x, y);
        if byText(x, y) && byText(y, z) { TextTransitive(x, y, z); }
      }
    }
    assert TotalPreorder(byName) by {
      forall x, y, z
        ensures byName(x, y) || byName(y, x)
        ensures byName(x, y) && byName(y, z) ==> byName(x, z)
      {
        TextTotal(x.name, y.name);
        if byName(x, y) && byName(y, z) { TextTransitive(x.name, y.name, z.name); }
      }
    }
    assert TotalPreorder(byCapability) by {
      forall x, y, z
        ensures byCapability(x, y) || byCapability(y, x)
        ensures byCapability(x, y) && byCapability(y, z) ==> byCapability(x, z)
      {
        TextTotal(x.capability, y.capability);
        if byCapability(x, y) && byCapability(y, z) {
          TextTransitive(x.capability, y.capability, z.capability);
        }
      }
    }
  }

  lemma {:induction false} DedupKeeps<T(!new)>(s: seq<T>, le: (T, T) -> bool)
    requires Sorted(s, le)
    ensures forall x :: x in multiset(Dedup(s)) <==> x in multiset(s)
    ensures Sorted(Dedup(s), le)
    ensures Dedup(Dedup(s)) == Dedup(s)
    ensures s != [] ==> Dedup(s) != [] && Dedup(s)[0] == s[0]
  {
    if |s| > 1 {
      assert s == [s[0]] + s[1..];
      DedupKeeps(s[1..], le);
      if s[0] != s[1] {
        assert Dedup(s)[1..] == Dedup(s[1..]);
      } else {
        assert s[1] in multiset(s[1..]);
      }
    }
  }

  lemma {:induction false} CanonicalEachSorted(claims: seq<ClaimDef>)
    requires Sorted(claims, byName)
    ensures Sorted(CanonicalEach(claims), byName)
  {
    hide CanonicalClaim;
    if claims != [] {
      CanonicalEachSorted(claims[1..]);
      HeadStaysFirst(claims);
      assert CanonicalEach(claims)[1..] == CanonicalEach(claims[1..]);
    }
  }

  lemma HeadStaysFirst(claims: seq<ClaimDef>)
    requires claims != [] && forall y <- multiset(claims[1..]) :: byName(claims[0], y)
    ensures forall y <- multiset(CanonicalEach(claims[1..])) :: byName(CanonicalClaim(claims[0]), y)
  {
    hide Sort;
    var tail, rest := claims[1..], CanonicalEach(claims[1..]);
    forall y | y in multiset(rest) ensures byName(CanonicalClaim(claims[0]), y) {
      var i :| 0 <= i < |rest| && rest[i] == y;
      assert tail[i] in multiset(tail) && rest[i] == CanonicalClaim(tail[i]);
    }
  }

  lemma CanonicalClaimTwice(d: ClaimDef)
    ensures CanonicalClaim(CanonicalClaim(d)) == CanonicalClaim(d)
  {
    if d.kind.EnumKind? {
      Orders();
      SortSorts(d.kind.values, byText);
      SortKeepsSorted(Sort(d.kind.values, byText), byText);
    }
  }

  lemma SortTwice<T(!new)>(s: seq<T>, le: (T, T) -> bool)
    requires TotalPreorder(le)
    ensures Sort(Sort(s, le), le) == Sort(s, le)
  {
    SortSorts(s, le);
    SortKeepsSorted(Sort(s, le), le);
  }

  lemma ClaimsTwice(claims: seq<ClaimDef>)
    ensures var once := CanonicalEach(Sort(claims, byName)); CanonicalEach(Sort(once, byName)) == once
  {
    hide Sort, CanonicalClaim, TotalPreorder;
    Orders();
    SortSorts(claims, byName);
    var sorted := Sort(claims, byName);
    var once := CanonicalEach(sorted);
    CanonicalEachSorted(sorted);
    SortKeepsSorted(once, byName);
    forall i | 0 <= i < |once| ensures CanonicalClaim(once[i]) == once[i] {
      CanonicalClaimTwice(sorted[i]);
    }
    assert CanonicalEach(once) == once;
  }

  lemma UiTwice(ui: AuthUiConfig)
    ensures CanonicalUi(CanonicalUi(ui)) == CanonicalUi(ui)
  {
    Orders();
    SortSorts(ui.screens, byRank);
    DedupKeeps(Sort(ui.screens, byRank), byRank);
    SortKeepsSorted(Dedup(Sort(ui.screens, byRank)), byRank);
  }

  /** The canonical form is a fixed point, for every declaration, valid or not. */
  lemma CanonicalIsIdempotent(c: AuthConfig)
    ensures Canonical(Canonical(c)) == Canonical(c)
  {
    hide Sort, CanonicalEach, CanonicalUi, TotalPreorder;
    Orders();
    SortTwice(c.providers, byText);
    SortTwice(c.policies, byCapability);
    ClaimsTwice(c.claims);
    UiTwice(c.ui);
  }

  // ----- What the canonical form remembers -----------------------------------------------------------

  ghost predicate SameKind(a: ClaimKind, b: ClaimKind) {
    if a.EnumKind? && b.EnumKind? then multiset(a.values) == multiset(b.values) else a == b
  }

  ghost predicate ClaimsWithin(a: seq<ClaimDef>, b: seq<ClaimDef>) {
    forall d <- a :: exists e <- b :: d.name == e.name && SameKind(d.kind, e.kind)
  }

  /** The two declarations differ at most in the order of providers, claims, enum values, policies and
      screens (and in the stored ui mode, which the screens determine). */
  ghost predicate SameDeclaration(a: AuthConfig, b: AuthConfig) {
    && multiset(a.providers) == multiset(b.providers)
    && ClaimsWithin(a.claims, b.claims) && ClaimsWithin(b.claims, a.claims)
    && multiset(a.policies) == multiset(b.policies)
    && multiset(a.ui.screens) == multiset(b.ui.screens)
    && a.multiTenant == b.multiTenant && a.isolation == b.isolation && a.agents == b.agents
    && a.ui.renderer == b.ui.renderer && a.ui.theme == b.ui.theme
    && a.experience == b.experience && a.passwordPolicy == b.passwordPolicy && a.storage == b.storage && a.mail == b.mail
  }

  lemma TextAntisymmetric(s: seq<string>)
    ensures Antisymmetric(s, byText)
  {
    forall x, y | byText(x, y) && byText(y, x) ensures x == y {
      TextTotal(x, y);
    }
  }

  lemma CanonicalClaimDecides(d: ClaimDef, e: ClaimDef)
    ensures CanonicalClaim(d) == CanonicalClaim(e) <==> d.name == e.name && SameKind(d.kind, e.kind)
  {
    if d.kind.EnumKind? && e.kind.EnumKind? {
      Orders();
      TextAntisymmetric(d.kind.values);
      SortForgetsOrder(d.kind.values, e.kind.values, byText);
    }
  }

  lemma {:induction false} CanonicalEachInsert(d: ClaimDef, claims: seq<ClaimDef>)
    ensures CanonicalEach(Insert(d, claims, byName)) == Insert(CanonicalClaim(d), CanonicalEach(claims), byName)
  {
    if claims != [] {
      CanonicalEachInsert(d, claims[1..]);
      assert CanonicalEach(claims)[1..] == CanonicalEach(claims[1..]);
      if !byName(d, claims[0]) {
        assert Insert(d, claims, byName)[1..] == Insert(d, claims[1..], byName);
      } else {
        assert ([d] + claims)[1..] == claims;
      }
    }
  }

  lemma {:induction false} CanonicalEachSort(claims: seq<ClaimDef>)
    ensures CanonicalEach(Sort(claims, byName)) == Sort(CanonicalEach(claims), byName)
  {
    if claims != [] {
      CanonicalEachSort(claims[1..]);
      CanonicalEachInsert(claims[0], Sort(claims[1..], byName));
      assert CanonicalEach(claims)[1..] == CanonicalEach(claims[1..]);
    }
  }

  ghost predicate DistinctNames(claims: seq<ClaimDef>) {
    forall i, j :: 0 <= i < j < |claims| ==> claims[i].name != claims[j].name
  }

  lemma NamesSeparate(claims: seq<ClaimDef>)
    requires DistinctNames(claims)
    ensures Antisymmetric(claims, byName)
  {
    forall x, y | x in multiset(claims) && y in multiset(claims) && byName(x, y) && byName(y, x) ensures x == y {
      TextTotal(x.name, y.name);
    }
  }

  lemma SortedClaimsDecide(a: seq<ClaimDef>, b: seq<ClaimDef>)
    requires DistinctNames(a)
    ensures Sort(a, byName) == Sort(b, byName) <==> multiset(a) == multiset(b)
  {
    NamesSeparate(a);
    Orders();
    SortForgetsOrder(a, b, byName);
  }

  lemma CanonicalClaimsDecide(a: seq<ClaimDef>, b: seq<ClaimDef>)
    requires DistinctNames(a) && DistinctNames(b)
    ensures CanonicalEach(Sort(a, byName)) == CanonicalEach(Sort(b, byName)) <==>
            ClaimsWithin(a, b) && ClaimsWithin(b, a)
  {
    hide ClaimsWithin, Sort, CanonicalClaim;
    var ca, cb := CanonicalEach(a), CanonicalEach(b);
    CanonicalEachSort(a);
    CanonicalEachSort(b);
    assert DistinctNames(ca) && DistinctNames(cb) by {
      CanonicalKeepsNames(a);
      CanonicalKeepsNames(b);
    }
    SortedClaimsDecide(ca, cb);
    DistinctSameElements(ca, cb);
    ClaimsWithinIs(a, b);
    ClaimsWithinIs(b, a);
  }

  lemma CanonicalKeepsNames(claims: seq<ClaimDef>)
    requires DistinctNames(claims)
    ensures DistinctNames(CanonicalEach(claims))
  {
  }

  lemma ClaimsWithinIs(a: seq<ClaimDef>, b: seq<ClaimDef>)
    ensures ClaimsWithin(a, b) <==> forall x <- CanonicalEach(a) :: x in CanonicalEach(b)
  {
    var ca, cb := CanonicalEach(a), CanonicalEach(b);
    forall i, j | 0 <= i < |a| && 0 <= j < |b|
      ensures ca[i] == cb[j] <==> a[i].name == b[j].name && SameKind(a[i].kind, b[j].kind)
    {
      CanonicalClaimDecides(a[i], b[j]);
    }
    if ClaimsWithin(a, b) {
      forall i | 0 <= i < |a| ensures ca[i] in cb {
        assert a[i] in a;
        var e :| e in b && a[i].name == e.name && SameKind(a[i].kind, e.kind);
        var j :| 0 <= j < |b| && b[j] == e;
        assert cb[j] == ca[i];
      }
    }
    if forall x <- ca :: x in cb {
      forall d | d in a ensures exists e <- b :: d.name == e.name && SameKind(d.kind, e.kind) {
        var i :| 0 <= i < |a| && a[i] == d;
        assert ca[i] in cb;
        var j :| 0 <= j < |cb| && cb[j] == ca[i];
        assert b[j] in b;
      }
    }
  }

  lemma {:induction false} DedupDistinct<T>(s: seq<T>)
    requires Distinct(s)
    ensures Dedup(s) == s
  {
    if |s| > 1 {
      DedupDistinct(s[1..]);
      assert s == [s[0]] + s[1..];
    }
  }

  lemma ScreensDecide(a: AuthUiConfig, b: AuthUiConfig)
    requires Distinct(a.screens) && Distinct(b.screens)
    ensures CanonicalUi(a) == CanonicalUi(b) <==>
            multiset(a.screens) == multiset(b.screens) && a.renderer == b.renderer && a.theme == b.theme
  {
    assert Antisymmetric(a.screens, byRank);
    SortForgetsOrder(a.screens, b.screens, byRank);
    SortIsDistinct(a.screens, byRank);
    SortIsDistinct(b.screens, byRank);
    DedupDistinct(Sort(a.screens, byRank));
    DedupDistinct(Sort(b.screens, byRank));
  }

  lemma SortIsDistinct<T(!new)>(s: seq<T>, le: (T, T) -> bool)
    requires Distinct(s) && TotalPreorder(le)
    ensures Distinct(Sort(s, le))
  {
    SortSorts(s, le);
    forall x ensures multiset(s)[x] <= 1 {
      DistinctMultiplicity(s, x);
    }
    SingleMultiplicity(Sort(s, le));
  }

  /** Two valid declarations have the same canonical form exactly when they differ only by reordering. */
  lemma CanonicalDecides(a: AuthConfig, b: AuthConfig)
    requires IsValid(a) && IsValid(b)
    ensures Canonical(a) == Canonical(b) <==> SameDeclaration(a, b)
  {
    Orders();
    TextAntisymmetric(a.providers);
    SortForgetsOrder(a.providers, b.providers, byText);
    CanonicalClaimsDecide(a.claims, b.claims);
    assert Antisymmetric(a.policies, byCapability) by {
      forall x, y | x in multiset(a.policies) && y in multiset(a.policies) && byCapability(x, y) && byCapability(y, x)
        ensures x == y
      {
        TextTotal(x.capability, y.capability);
        var i, j :| 0 <= i < |a.policies| && a.policies[i] == x && 0 <= j < |a.policies| && a.policies[j] == y;
        assert i == j;
      }
    }
    SortForgetsOrder(a.policies, b.policies, byCapability);
    ScreensDecide(a.ui, b.ui);
  }
}
