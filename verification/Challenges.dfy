/** Single-use challenges: the store, and what holds over every trace of its operations. */
module Challenges {
  import opened Prelude

  datatype Kind = PasswordReset | EmailVerification

  /** Only the digest of a token is kept. */
  datatype Digest = Digest(token: string)

  datatype Challenge = Challenge(kind: Kind, tenant: string, account: string, expiresAt: int, consumed: bool, revoked: bool)

  type Entries = map<Digest, Challenge>

  datatype Error = UnknownChallenge | InvalidOrExpired | OperationFailed(reason: string)

  // ----- What each operation does -------------------------------------------------------------------

  function Issue(entries: Entries, token: string, kind: Kind, tenant: string, account: string, expiresAt: int): Entries {
    entries[Digest(token) := Challenge(kind, tenant, account, expiresAt, false, false)]
  }

  /** Why the operation is not even tried. */
  function Refusal(entries: Entries, token: string, kind: Kind, now: int): Option<Error> {
    if Digest(token) !in entries then Some(UnknownChallenge)
    else
      var entry := entries[Digest(token)];
      if entry.kind != kind || entry.revoked || entry.consumed || now >= entry.expiresAt then Some(InvalidOrExpired) else None
  }

  function Consume(entries: Entries, token: string, kind: Kind, now: int, operation: (string, string) -> Result<(), string>)
    : (Entries, Result<(), Error>)
  {
    if Refusal(entries, token, kind, now).Some? then (entries, Err(Refusal(entries, token, kind, now).value))
    else
      var entry := entries[Digest(token)];
      match operation(entry.tenant, entry.account)
      case Err(reason) => (entries, Err(OperationFailed(reason)))
      case Ok(_) => (entries[Digest(token) := entry.(consumed := true)], Ok(()))
  }

  function Revoke(entries: Entries, token: string): (Entries, bool) {
    if Digest(token) in entries then (entries[Digest(token) := entries[Digest(token)].(revoked := true)], true)
    else (entries, false)
  }

  // ----- The store ----------------------------------------------------------------------------------

  class ChallengeStore {
    var entries: Entries

    constructor ()
      ensures entries == map[]
    {
      entries := map[];
    }

    /** `token` is the text of the random bytes drawn for this challenge. */
    method IssueToken(kind: Kind, tenant: string, account: string, expiresAt: int, token: string) returns (r: string)
      modifies this
      ensures r == token && entries == Issue(old(entries), token, kind, tenant, account, expiresAt)
    {
      entries := entries[Digest(token) := Challenge(kind, tenant, account, expiresAt, false, false)];
      r := token;
    }

    method ConsumeWith(token: string, kind: Kind, now: int, operation: (string, string) -> Result<(), string>)
      returns (r: Result<(), Error>)
      modifies this
      ensures (entries, r) == Consume(old(entries), token, kind, now, operation)
    {
      if Digest(token) !in entries {
        return Err(UnknownChallenge);
      }
      var entry := entries[Digest(token)];
      if entry.kind != kind || entry.revoked || entry.consumed || now >= entry.expiresAt {
        return Err(InvalidOrExpired);
      }
      var outcome := operation(entry.tenant, entry.account);
      if outcome.Err? {
        return Err(OperationFailed(outcome.error));
      }
      entries := entries[Digest(token) := entry.(consumed := true)];
      r := Ok(());
    }

    method RevokeToken(token: string) returns (found: bool)
      modifies this
      ensures (entries, found) == Revoke(old(entries), token)
    {
      found := Digest(token) in entries;
      if found {
        entries := entries[Digest(token) := entries[Digest(token)].(revoked := true)];
      }
    }
  }

  // ----- Traces -------------------------------------------------------------------------------------

  datatype Step =
    | IssueStep(token: string, kind: Kind, tenant: string, account: string, expiresAt: int)
    | ConsumeStep(token: string, kind: Kind, now: int, operation: (string, string) -> Result<(), string>)
    | RevokeStep(token: string)

  function After(entries: Entries, step: Step): Entries {
    match step
    case IssueStep(token, kind, tenant, account, expiresAt) => Issue(entries, token, kind, tenant, account, expiresAt)
    case ConsumeStep(token, kind, now, operation) => Consume(entries, token, kind, now, operation).0
    case RevokeStep(token) => Revoke(entries, token).0
  }

  /** The store after the first `n` steps of a trace that starts with an empty one. */
  function At(trace: seq<Step>, n: nat): Entries
    requires n <= |trace|
  {
    if n == 0 then map[] else After(At(trace, n - 1), trace[n - 1])
  }

  /** Step `i` carries out its operation, and it succeeds. */
  ghost predicate Succeeds(trace: seq<Step>, i: nat)
    requires i < |trace|
  {
    && trace[i].ConsumeStep?
    && Consume(At(trace, i), trace[i].token, trace[i].kind, trace[i].now, trace[i].operation).1.Ok?
  }

  ghost predicate Tried(trace: seq<Step>, i: nat)
    requires i < |trace|
  {
    trace[i].ConsumeStep? && Refusal(At(trace, i), trace[i].token, trace[i].kind, trace[i].now).None?
  }

  /** Step `q` issued the token, and no step from there to `n` issued it again. */
  ghost predicate IssuedAt(trace: seq<Step>, n: nat, token: string, q: nat)
    requires n <= |trace|
  {
    && q < n && trace[q].IssueStep? && trace[q].token == token
    && forall i :: q < i < n ==> !(trace[i].IssueStep? && trace[i].token == token)
  }

  ghost predicate UsedBetween(trace: seq<Step>, q: nat, n: nat, token: string)
    requires n <= |trace|
  {
    exists i :: q < i < n && trace[i].token == token && Succeeds(trace, i)
  }

  ghost predicate RevokedBetween(trace: seq<Step>, q: nat, n: nat, token: string)
    requires n <= |trace|
  {
    exists i :: q < i < n && trace[i] == RevokeStep(token)
  }

  /** The store says of a token what happened to it since it was issued at `q`. */
  ghost predicate Records(trace: seq<Step>, n: nat, token: string, q: nat)
    requires n <= |trace|
  {
    && q < n && trace[q].IssueStep? && Digest(token) in At(trace, n)
    && At(trace, n)[Digest(token)] ==
       Challenge(trace[q].kind, trace[q].tenant, trace[q].account, trace[q].expiresAt,
                 UsedBetween(trace, q, n, token), RevokedBetween(trace, q, n, token))
  }

  /** The store knows exactly the issued tokens, and what happened to each since its latest issue. */
  lemma {:induction false} EntryMeans(trace: seq<Step>, n: nat, token: string)
    requires n <= |trace|
    ensures Digest(token) in At(trace, n) <==> exists q: nat :: IssuedAt(trace, n, token, q)
    ensures forall q: nat :: IssuedAt(trace, n, token, q) ==> Records(trace, n, token, q)
  {
    hide At, Succeeds, After, IssuedAt, UsedBetween, RevokedBetween;
    if n == 0 {
      NothingYet(trace, token);
    } else {
      var m: nat := n - 1;
      EntryMeans(trace, m, token);
      AfterMeans(trace, n, token);
      if trace[n - 1].IssueStep? && trace[n - 1].token == token {
        JustIssued(trace, n, token);
        assert IssuedAt(trace, n, token, n - 1) && Records(trace, n, token, n - 1);
      } else {
        forall q: nat ensures IssuedAt(trace, n, token, q) <==> IssuedAt(trace, m, token, q) {
          StillIssued(trace, n, token, q);
        }
        forall q: nat | IssuedAt(trace, n, token, q) ensures Records(trace, n, token, q) {
          IssuedBefore(trace, m, token, q);
          OneStepMore(trace, q, n, token);
        }
      }
    }
  }

  lemma JustIssued(trace: seq<Step>, n: nat, token: string)
    requires 0 < n <= |trace| && trace[n - 1].IssueStep? && trace[n - 1].token == token
    ensures forall q: nat :: IssuedAt(trace, n, token, q) <==> q == n - 1
    ensures !UsedBetween(trace, n - 1, n, token) && !RevokedBetween(trace, n - 1, n, token)
  {
  }

  lemma StillIssued(trace: seq<Step>, n: nat, token: string, q: nat)
    requires 0 < n <= |trace| && !(trace[n - 1].IssueStep? && trace[n - 1].token == token)
    ensures IssuedAt(trace, n, token, q) <==> IssuedAt(trace, n - 1, token, q)
  {
  }

  lemma IssuedBefore(trace: seq<Step>, n: nat, token: string, q: nat)
    requires n <= |trace| && IssuedAt(trace, n, token, q)
    ensures q < n && trace[q].IssueStep?
  {
  }

  lemma OneStepMore(trace: seq<Step>, q: nat, n: nat, token: string)
    requires q < n - 1 && n <= |trace|
    ensures UsedBetween(trace, q, n, token) <==>
            UsedBetween(trace, q, n - 1, token) || (trace[n - 1].token == token && Succeeds(trace, n - 1))
    ensures RevokedBetween(trace, q, n, token) <==> RevokedBetween(trace, q, n - 1, token) || trace[n - 1] == RevokeStep(token)
  {
    hide Succeeds;
    if UsedBetween(trace, q, n - 1, token) {
      var i :| q < i < n - 1 && trace[i].token == token && Succeeds(trace, i);
      assert q < i < n;
    }
  }

  lemma NothingYet(trace: seq<Step>, token: string)
    ensures At(trace, 0) == map[]
    ensures forall q: nat :: !IssuedAt(trace, 0, token, q)
  {
  }

  /** What one step does to the entry of a token. */
  lemma AfterMeans(trace: seq<Step>, n: nat, token: string)
    requires 0 < n <= |trace|
    ensures var (before, step, key) := (At(trace, n - 1), trace[n - 1], Digest(token));
            && (step.IssueStep? && step.token == token ==>
                  key in At(trace, n) &&
                  At(trace, n)[key] == Challenge(step.kind, step.tenant, step.account, step.expiresAt, false, false))
            && (!(step.IssueStep? && step.token == token) ==>
                  && (key in At(trace, n) <==> key in before)
                  && (key in before ==>
                        At(trace, n)[key] == before[key].(
                          consumed := before[key].consumed || (step.token == token && Succeeds(trace, n - 1)),
                          revoked := before[key].revoked || step == RevokeStep(token))))
  {
  }

  // ----- Guarantees ---------------------------------------------------------------------------------

  /** An operation is carried out exactly when its token was issued, for its kind, with an expiry still ahead,
      and since then no operation on it succeeded and it was not revoked. */
  lemma TriedExactly(trace: seq<Step>, i: nat)
    requires i < |trace| && trace[i].ConsumeStep?
    ensures Tried(trace, i) <==>
            exists q: nat :: IssuedAt(trace, i, trace[i].token, q) && trace[q].kind == trace[i].kind
                        && trace[i].now < trace[q].expiresAt
                        && !UsedBetween(trace, q, i, trace[i].token) && !RevokedBetween(trace, q, i, trace[i].token)
  {
    hide At, IssuedAt, UsedBetween, RevokedBetween;
    EntryMeans(trace, i, trace[i].token);
  }

  ghost predicate FreshTokens(trace: seq<Step>) {
    forall i, j :: 0 <= i < j < |trace| && trace[i].IssueStep? && trace[j].IssueStep? ==> trace[i].token != trace[j].token
  }

  lemma SuccessIsTried(trace: seq<Step>, i: nat)
    requires i < |trace|
    ensures Succeeds(trace, i) ==> Tried(trace, i)
  {
  }

  /** The issue of a token drawn only once stays its latest. */
  lemma StaysIssued(trace: seq<Step>, i: nat, j: nat, token: string, q: nat)
    requires FreshTokens(trace) && i <= j <= |trace| && IssuedAt(trace, i, token, q)
    ensures forall p: nat :: IssuedAt(trace, j, token, p) <==> p == q
  {
    forall k | q < k < j ensures !(trace[k].IssueStep? && trace[k].token == token) {
      assert trace[q].IssueStep?;
    }
    assert IssuedAt(trace, j, token, q);
  }

  /** A token that is never drawn twice works at most once, and never after it was revoked. */
  lemma AtMostOnce(trace: seq<Step>, i: nat, j: nat)
    requires FreshTokens(trace) && i < j < |trace| && trace[i].token == trace[j].token
    requires Succeeds(trace, i) || (trace[i].RevokeStep? && exists q: nat :: IssuedAt(trace, i, trace[i].token, q))
    ensures !Succeeds(trace, j)
  {
    hide At, Consume, IssuedAt;
    var token := trace[j].token;
    SuccessIsTried(trace, i);
    SuccessIsTried(trace, j);
    if trace[i].ConsumeStep? {
      TriedExactly(trace, i);
    }
    var q: nat :| IssuedAt(trace, i, token, q);
    StaysIssued(trace, i, j, token, q);
    assert q < i by { IssuedBefore(trace, i, token, q); }
    if Succeeds(trace, i) {
      assert UsedBetween(trace, q, j, token);
    } else {
      assert trace[i] == RevokeStep(token);
      assert RevokedBetween(trace, q, j, token);
    }
    if trace[j].ConsumeStep? {
      TriedExactly(trace, j);
    }
  }

  /** The operation runs for the tenant and account the token was issued to, and its outcome decides. */
  lemma RunsForItsAccount(trace: seq<Step>, i: nat, q: nat)
    requires i < |trace| && Tried(trace, i) && IssuedAt(trace, i, trace[i].token, q)
    ensures Succeeds(trace, i) <==> trace[i].operation(trace[q].tenant, trace[q].account).Ok?
  {
    hide IssuedAt, UsedBetween, RevokedBetween, At;
    EntryMeans(trace, i, trace[i].token);
  }

  function Answer(trace: seq<Step>, i: nat): Result<(), Error>
    requires i < |trace| && trace[i].ConsumeStep?
  {
    Consume(At(trace, i), trace[i].token, trace[i].kind, trace[i].now, trace[i].operation).1
  }

  /** A consumption is told that its token is unknown exactly when it was never issued, that it is no longer any good exactly
      when it was issued but is not to be tried, and otherwise what its operation says. */
  lemma AnsweredExactly(trace: seq<Step>, i: nat)
    requires i < |trace| && trace[i].ConsumeStep?
    ensures Answer(trace, i) == Err(UnknownChallenge) <==> !exists q: nat :: IssuedAt(trace, i, trace[i].token, q)
    ensures Answer(trace, i) == Err(InvalidOrExpired) <==> !Tried(trace, i) && exists q: nat :: IssuedAt(trace, i, trace[i].token, q)
    ensures forall q: nat :: Tried(trace, i) && IssuedAt(trace, i, trace[i].token, q) ==>
              Answer(trace, i) == match trace[i].operation(trace[q].tenant, trace[q].account)
                case Ok(_) => Ok(())
                case Err(reason) => Err(OperationFailed(reason))
  {
    hide At, IssuedAt, UsedBetween, RevokedBetween;
    EntryMeans(trace, i, trace[i].token);
  }

  /** Revoking finds exactly the tokens that were issued. */
  lemma RevokeFindsExactly(trace: seq<Step>, i: nat)
    requires i < |trace| && trace[i].RevokeStep?
    ensures Revoke(At(trace, i), trace[i].token).1 <==> exists q: nat :: IssuedAt(trace, i, trace[i].token, q)
  {
    hide At, IssuedAt;
    EntryMeans(trace, i, trace[i].token);
  }

  /** A consumption that does not succeed, for whatever reason, leaves the store as it was; after a failed
      operation the same token can be tried again as long as it has not expired. */
  lemma FailureChangesNothing(trace: seq<Step>, i: nat, now: int)
    requires i < |trace| && trace[i].ConsumeStep? && !Succeeds(trace, i)
    ensures At(trace, i + 1) == At(trace, i)
    ensures Tried(trace, i) ==>
            (Refusal(At(trace, i + 1), trace[i].token, trace[i].kind, now).None? <==>
             now < At(trace, i)[Digest(trace[i].token)].expiresAt)
  {
  }
}
