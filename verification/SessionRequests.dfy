/** When each request about sessions is accepted, and what it then leaves in the tables. */
module SessionRequests {
  import opened Text
  import opened Wrappers
  import opened Sessions

  // ---------------------------------------------------------------- conditions

  predicate Registered(s: State, u: string, o: string) { u in s.users && (u, o) in s.memberships }

  /** An active account with an active membership, and the right password. */
  predicate Authenticated(s: State, u: string, o: string, passwordOk: bool) {
    passwordOk && Registered(s, u, o) && s.users[u].isActive && s.memberships[(u, o)]
  }

  /** The token was sent for this purpose, has not been used, and its time has not run out. */
  predicate Presentable(s: State, t: Token, kind: Kind) {
    && t in s.actionTokens && s.actionTokens[t].kind == kind
    && s.actionTokens[t].consumedAt == None && s.now <= s.actionTokens[t].expiresAt
  }

  predicate Refreshable(s: State, t: Token) {
    && t in s.refreshTokens && s.refreshTokens[t].revokedAt == None && s.now <= s.refreshTokens[t].expiresAt
    && Registered(s, s.refreshTokens[t].userID, s.refreshTokens[t].orgID)
  }

  /** The stored code equals the given one up to case and surrounding white space. */
  predicate Fits(codes: seq<string>, code: string, i: nat) {
    i < |codes| && EqualFold(TrimSpace(codes[i]), TrimSpace(code))
  }

  predicate FirstFit(codes: seq<string>, code: string, i: nat) {
    Fits(codes, code, i) && forall k :: 0 <= k < i ==> !Fits(codes, code, k)
  }

  /** The one-time code is right, or the code is one of the stored recovery codes. */
  predicate Proven(codes: seq<string>, code: string, totpOk: bool) {
    totpOk || exists i :: 0 <= i < |codes| && Fits(codes, code, i)
  }

  predicate Verifiable(s: State, t: Token, code: string, totpOk: bool) {
    Presentable(s, t, LoginMFA) &&
    var a := s.actionTokens[t];
    Registered(s, a.userID, a.orgID) && Proven(s.users[a.userID].recoveryCodes, code, totpOk)
  }

  // ---------------------------------------------------------------- acceptance of one request

  lemma CodeConsumed(codes: seq<string>, code: string, totpOk: bool)
    ensures var (ok, used, rest) := ConsumeTOTP(codes, code, totpOk);
            && (ok <==> Proven(codes, code, totpOk))
            && (totpOk ==> used == None && rest == codes)
            && (!totpOk && ok ==> exists i: nat :: FirstFit(codes, code, i) && used == Some(codes[i]) &&
                                              rest == codes[..i] + codes[i + 1..])
  {
    hide EqualFold, TrimSpace, MatchCode;
    if !totpOk {
      if j: nat :| Fits(codes, code, j) {
        var i := LeastFit(codes, code, j);
        NoFitBefore(codes, code, i);
        MatchLater(codes, TrimSpace(code), i);
      } else {
        NoFitBefore(codes, code, |codes|);
        MatchLater(codes, TrimSpace(code), |codes|);
      }
    }
  }

  lemma NoFitBefore(codes: seq<string>, code: string, k: nat)
    requires k <= |codes| && forall j: nat :: j < k ==> !Fits(codes, code, j)
    ensures forall j :: 0 <= j < k ==> !EqualFold(TrimSpace(codes[j]), TrimSpace(code))
  {
    hide EqualFold, TrimSpace;
    forall j | 0 <= j < k ensures !EqualFold(TrimSpace(codes[j]), TrimSpace(code)) {
      assert !Fits(codes, code, j);
    }
  }

  lemma {:induction false} LeastFit(codes: seq<string>, code: string, j: nat) returns (i: nat)
    requires Fits(codes, code, j)
    ensures FirstFit(codes, code, i)
  {
    hide EqualFold, TrimSpace;
    if k: nat :| k < j && Fits(codes, code, k) {
      i := LeastFit(codes, code, k);
    } else {
      i := j;
    }
  }

  /** Logging in. */
  lemma LoginAccepted(s: State, e: Event)
    ensures var o := Step(s, e).1;
            && (o.LoggedIn? <==>
                e.Login? && Authenticated(s, e.userID, e.orgID, e.passwordOk) && !s.users[e.userID].totpEnabled)
            && (o.LoggedIn? ==> o.userID == e.userID)
            && (o.Sent? && o.kind == LoginMFA <==>
                e.Login? && Authenticated(s, e.userID, e.orgID, e.passwordOk) && s.users[e.userID].totpEnabled)
  {
    hide ConsumeTOTP, RevokeAll;
  }

  /** Proving a second factor, and refreshing. */
  lemma SecondFactorAccepted(s: State, e: Event)
    ensures var o := Step(s, e).1;
            && (o.LoggedInMFA? <==> e.VerifyLoginTOTP? && Verifiable(s, e.token, e.code, e.totpOk))
            && (o.LoggedInMFA? ==> o.action == e.token && o.userID == s.actionTokens[e.token].userID)
            && (o.LoggedInMFA? ==>
                if e.totpOk then o.recovery == None
                else var codes := s.users[o.userID].recoveryCodes;
                     exists i: nat :: FirstFit(codes, e.code, i) && o.recovery == Some(codes[i]))
  {
    hide RevokeAll, ConsumeTOTP, Proven;
    if e.VerifyLoginTOTP? && e.token in s.actionTokens && s.actionTokens[e.token].userID in s.users {
      CodeConsumed(s.users[s.actionTokens[e.token].userID].recoveryCodes, e.code, e.totpOk);
    }
  }

  lemma RefreshAccepted(s: State, e: Event)
    ensures var o := Step(s, e).1;
            && (o.Rotated? <==> e.Refresh? && Refreshable(s, e.token))
            && (o.Rotated? ==> o.spent == e.token && o.userID == s.refreshTokens[e.token].userID)
  {
    hide ConsumeTOTP, RevokeAll, Usable;
  }

  /** Resetting password and authenticator. */
  lemma ResetAccepted(s: State, e: Event)
    ensures var o := Step(s, e).1;
            && (o.Sent? && o.kind == PasswordReset <==>
               e.RequestReset? && e.kind == PasswordReset && e.userID in s.users)
            && (o.Sent? && o.kind == MFAReset <==> e.RequestReset? && e.kind == MFAReset && e.userID in s.users)
            && (o.PasswordChanged? <==>
                e.ResetPassword? && Presentable(s, e.token, PasswordReset) && 8 <= e.newPasswordLength)
            && (o.PasswordChanged? ==> o.action == e.token && o.userID == s.actionTokens[e.token].userID)
            && (o.MFACleared? <==> e.ConfirmMFAReset? && Presentable(s, e.token, MFAReset))
            && (o.MFACleared? ==> o.action == e.token && o.userID == s.actionTokens[e.token].userID)
  {
    hide ConsumeTOTP, RevokeAll;
  }

  /** Setting up an authenticator. */
  lemma SetupAccepted(s: State, e: Event)
    ensures var o := Step(s, e).1;
            && (o.Sent? && o.kind == MFASetup <==> e.BeginMFASetup? && Registered(s, e.userID, e.orgID))
            && (o.MFAInstalled? <==>
                e.ConfirmMFASetup? && Presentable(s, e.token, MFASetup) && e.totpOk &&
                s.actionTokens[e.token].userID == e.principalID)
            && (o.MFAInstalled? ==> o.action == e.token && o.userID == e.principalID &&
                                    o.codes == s.actionTokens[e.token].recoveryCodes)
  {
    hide ConsumeTOTP, RevokeAll;
  }

  // ---------------------------------------------------------------- acceptance in every run

  /** In every run, a session is started or a challenge sent for exactly those logins whose password was right and whose
      account and membership were active at the time. */
  lemma LoginsInRun(s: State, events: seq<Event>, k: nat)
    requires k < |events|
    ensures var before, e, o := Run(s, events[..k]).0, events[k], Run(s, events).1[k];
            && (o.LoggedIn? <==>
                e.Login? && Authenticated(before, e.userID, e.orgID, e.passwordOk) &&
                  !before.users[e.userID].totpEnabled)
            && (o.Sent? && o.kind == LoginMFA <==>
                e.Login? && Authenticated(before, e.userID, e.orgID, e.passwordOk) &&
                  before.users[e.userID].totpEnabled)
  {
    hide Step, Authenticated;
    OutcomeAt(s, events, k);
    LoginAccepted(Run(s, events[..k]).0, events[k]);
  }

  /** In every run, these are the only other ways to a session. */
  lemma SessionsInRun(s: State, events: seq<Event>, k: nat)
    requires k < |events|
    ensures var before, e, o := Run(s, events[..k]).0, events[k], Run(s, events).1[k];
            && (o.LoggedInMFA? <==> e.VerifyLoginTOTP? && Verifiable(before, e.token, e.code, e.totpOk))
            && (o.Rotated? <==> e.Refresh? && Refreshable(before, e.token))
  {
    hide Step, Verifiable, Refreshable;
    OutcomeAt(s, events, k);
    SecondFactorAccepted(Run(s, events[..k]).0, events[k]);
    RefreshAccepted(Run(s, events[..k]).0, events[k]);
  }

  /** In every run, these are the only ways to change a password, and to clear or install an authenticator. */
  lemma ChangesInRun(s: State, events: seq<Event>, k: nat)
    requires k < |events|
    ensures var before, e, o := Run(s, events[..k]).0, events[k], Run(s, events).1[k];
            && (o.PasswordChanged? <==>
                e.ResetPassword? && Presentable(before, e.token, PasswordReset) && 8 <= e.newPasswordLength)
            && (o.MFACleared? <==> e.ConfirmMFAReset? && Presentable(before, e.token, MFAReset))
            && (o.MFAInstalled? <==>
                e.ConfirmMFASetup? && Presentable(before, e.token, MFASetup) && e.totpOk &&
                before.actionTokens[e.token].userID == e.principalID)
  {
    hide Step, Presentable;
    OutcomeAt(s, events, k);
    ResetAccepted(Run(s, events[..k]).0, events[k]);
    SetupAccepted(Run(s, events[..k]).0, events[k]);
  }

  // ---------------------------------------------------------------- what is left in the tables

  /** A request about sessions that is refused changes nothing. */
  lemma RefusedChangesNothing(s: State, e: Event)
    requires Step(s, e).1.Rejected? && !e.DropUser?
    ensures Step(s, e).0 == s
  {
    hide ConsumeTOTP, RevokeAll, Usable;
  }

  /** Nothing but the token tables and the users is touched, and the clock stands still. */
  predicate SameSurroundings(s: State, s': State) {
    s'.refreshTTL == s.refreshTTL && s'.now == s.now && s'.memberships == s.memberships
  }

  /** One more refresh token, for the user in the organisation, unrevoked, for the configured time. */
  predicate OneSession(s: State, s': State, u: string, o: string) {
    && s.next in s'.refreshTokens && s'.next == s.next + 1
    && var r := s'.refreshTokens[s.next];
       r.userID == u && r.orgID == o && r.revokedAt == None && r.expiresAt == s.now + s.refreshTTL
  }

  ghost predicate OtherSessionsSame(s: State, s': State, t: Token) {
    forall k :: k != s.next && k != t ==>
      (k in s'.refreshTokens <==> k in s.refreshTokens) &&
      (k in s.refreshTokens ==> s'.refreshTokens[k] == s.refreshTokens[k])
  }

  /** One more action token of the kind for the user, unused, for so many seconds, and empty unless filled. */
  predicate OneSent(
    s: State, s': State, kind: Kind, u: string, o: string, seconds: nat, secret: string, codes: seq<string>)
  {
    && s'.actionTokens.Keys == s.actionTokens.Keys + {s.next} && s'.next == s.next + 1
    && (forall k :: k in s.actionTokens && k != s.next ==> s'.actionTokens[k] == s.actionTokens[k])
    && var a := s'.actionTokens[s.next];
       a.kind == kind && a.userID == u && a.orgID == o && a.consumedAt == None && a.expiresAt == s.now + seconds &&
       a.secret == secret && a.recoveryCodes == codes
  }

  /** The action token is marked as used now, and no other changes. */
  predicate OneConsumed(s: State, s': State, t: Token) {
    && s'.actionTokens.Keys == s.actionTokens.Keys && t in s.actionTokens
    && s'.actionTokens[t].consumedAt == Some(s.now)
    && s'.actionTokens[t].(consumedAt := None) == s.actionTokens[t].(consumedAt := None)
    && forall k :: k in s.actionTokens && k != t ==> s'.actionTokens[k] == s.actionTokens[k]
  }

  predicate OtherUsersSame(s: State, s': State, u: string) {
    s'.users.Keys == s.users.Keys && forall v :: v in s.users && v != u ==> s'.users[v] == s.users[v]
  }

  lemma LoggedInTables(s: State, u: string, o: string)
    requires Authenticated(s, u, o, true)
    ensures var s' := Step(s, Login(u, o, true)).0;
            && SameSurroundings(s, s') && s'.users == s.users
            && if s.users[u].totpEnabled then s'.refreshTokens == s.refreshTokens &&
               OneSent(s, s', LoginMFA, u, o, 300, "", [])
               else s'.actionTokens == s.actionTokens && OneSession(s, s', u, o) && OtherSessionsSame(s, s', s.next)
  {
  }

  /** The challenge is used up, and so is the recovery code if it was one. */
  lemma VerifiedTables(s: State, t: Token, code: string, totpOk: bool)
    requires Verifiable(s, t, code, totpOk)
    ensures var s', a := Step(s, VerifyLoginTOTP(t, code, totpOk)).0, s.actionTokens[t];
            var user := s.users[a.userID];
            && SameSurroundings(s, s') && OneConsumed(s, s', t)
            && OneSession(s, s', a.userID, a.orgID) && OtherSessionsSame(s, s', s.next)
            && OtherUsersSame(s, s', a.userID)
            && s'.users[a.userID].(recoveryCodes := []) == user.(recoveryCodes := [])
            && if totpOk then s'.users[a.userID].recoveryCodes == user.recoveryCodes
               else exists i: nat :: FirstFit(user.recoveryCodes, code, i) &&
                                s'.users[a.userID].recoveryCodes ==
                                  user.recoveryCodes[..i] + user.recoveryCodes[i + 1..]
  {
    hide ConsumeTOTP, Proven, FirstFit;
    CodeConsumed(s.users[s.actionTokens[t].userID].recoveryCodes, code, totpOk);
  }

  /** The token passed is revoked now, and its successor belongs to the same user and organisation. */
  lemma RotatedTables(s: State, t: Token)
    requires Refreshable(s, t) && t != s.next
    ensures var s', r := Step(s, Refresh(t)).0, s.refreshTokens[t];
            && SameSurroundings(s, s') && s'.users == s.users && s'.actionTokens == s.actionTokens
            && OneSession(s, s', r.userID, r.orgID) && OtherSessionsSame(s, s', t)
            && t in s'.refreshTokens && s'.refreshTokens[t].revokedAt == Some(s.now)
            && s'.refreshTokens[t].(revokedAt := None) == r
  {
  }

  lemma ResetSentTables(s: State, u: string, kind: Kind)
    requires u in s.users && (kind == PasswordReset || kind == MFAReset)
    ensures var s' := Step(s, RequestReset(u, kind)).0;
            && SameSurroundings(s, s') && s'.users == s.users && s'.refreshTokens == s.refreshTokens
            && OneSent(s, s', kind, u, "", 1800, "", [])
  {
  }

  /** The new password is stored, all sessions of the user end, nobody else's do, and the token is used up. */
  lemma PasswordChangedTables(s: State, t: Token, length: nat, hash: string)
    requires Presentable(s, t, PasswordReset) && 8 <= length
    ensures var s', u := Step(s, ResetPassword(t, length, hash)).0, s.actionTokens[t].userID;
            && SameSurroundings(s, s') && s'.next == s.next && OneConsumed(s, s', t) && OtherUsersSame(s, s', u)
            && (u in s.users ==> s'.users[u].passwordHash == hash &&
                                 s'.users[u].(passwordHash := "") == s.users[u].(passwordHash := ""))
            && s'.refreshTokens.Keys == s.refreshTokens.Keys
            && forall k :: k in s.refreshTokens ==>
                 var r, r' := s.refreshTokens[k], s'.refreshTokens[k];
                 && r'.(revokedAt := None) == r.(revokedAt := None)
                 && r'.revokedAt == if r.userID == u && r.revokedAt == None then Some(s.now) else r.revokedAt
  {
  }

  /** The authenticator and its recovery codes go, everything else of the user stays. */
  lemma MFAClearedTables(s: State, t: Token)
    requires Presentable(s, t, MFAReset)
    ensures var s', u := Step(s, ConfirmMFAReset(t)).0, s.actionTokens[t].userID;
            && SameSurroundings(s, s') && s'.next == s.next && s'.refreshTokens == s.refreshTokens
            && OneConsumed(s, s', t) && OtherUsersSame(s, s', u)
            && (u in s.users ==>
                && !s'.users[u].totpEnabled && s'.users[u].totpSecret == "" && s'.users[u].recoveryCodes == []
                && s'.users[u].isActive == s.users[u].isActive && s'.users[u].passwordHash == s.users[u].passwordHash)
  {
  }

  /** The setup token carries what will be installed. */
  lemma SetupSentTables(s: State, u: string, o: string, secret: string, codes: seq<string>)
    requires Registered(s, u, o)
    ensures var s' := Step(s, BeginMFASetup(u, o, secret, codes)).0;
            && SameSurroundings(s, s') && s'.users == s.users && s'.refreshTokens == s.refreshTokens
            && OneSent(s, s', MFASetup, u, o, 600, secret, codes)
  {
  }

  /** What the token carries is installed, everything else of the user stays. */
  lemma MFAInstalledTables(s: State, u: string, t: Token)
    requires Presentable(s, t, MFASetup) && s.actionTokens[t].userID == u
    ensures var s', a := Step(s, ConfirmMFASetup(u, t, true)).0, s.actionTokens[t];
            && SameSurroundings(s, s') && s'.next == s.next && s'.refreshTokens == s.refreshTokens
            && OneConsumed(s, s', t) && OtherUsersSame(s, s', u)
            && (u in s.users ==>
                && s'.users[u].totpEnabled && s'.users[u].totpSecret == a.secret
                && s'.users[u].recoveryCodes == a.recoveryCodes
                && s'.users[u].isActive == s.users[u].isActive && s'.users[u].passwordHash == s.users[u].passwordHash)
  {
  }

  // ---------------------------------------------------------------- the surroundings

  /** What else may happen between requests about sessions: time passes, accounts are added, changed and removed. */
  lemma AccountTables(s: State, duration: nat, u: string, user: User, isActive: bool, hash: string)
    ensures Step(s, Tick(duration)).0 == s.(now := s.now + duration)
    ensures var s' := Step(s, PutUser(u, user)).0;
            && s'.(users := s.users) == s && s'.users.Keys == s.users.Keys + {u}
            && (forall v :: v in s.users ==> s'.users[v] == s.users[v])
            && (u !in s.users ==> s'.users[u] == user.(recoveryCodes := []))
    ensures var s' := Step(s, DropUser(u)).0;
            && s'.(users := s.users) == s && s'.users.Keys == s.users.Keys - {u}
            && (forall v :: v in s'.users ==> s'.users[v] == s.users[v])
    ensures var s' := Step(s, SetActive(u, isActive, hash)).0;
            && s'.(users := s.users) == s && OtherUsersSame(s, s', u)
            && (u in s.users ==> s'.users[u] == s.users[u].(isActive := isActive, passwordHash := hash))
  {
  }

  /** And memberships. */
  lemma MembershipTables(s: State, u: string, o: string, active: bool)
    ensures var s' := Step(s, PutMembership(u, o, active)).0;
            && s'.(memberships := s.memberships) == s && s'.memberships.Keys == s.memberships.Keys + {(u, o)}
            && s'.memberships[(u, o)] == active
            && forall m :: m in s.memberships && m != (u, o) ==> s'.memberships[m] == s.memberships[m]
    ensures var s' := Step(s, DropMembership(u, o)).0;
            && s'.(memberships := s.memberships) == s && s'.memberships.Keys == s.memberships.Keys - {(u, o)}
            && forall m :: m in s'.memberships ==> s'.memberships[m] == s.memberships[m]
  {
  }

  /** Adding and changing an account say whether they worked. */
  lemma AccountOutcomes(s: State, u: string, user: User, isActive: bool, hash: string)
    ensures Step(s, PutUser(u, user)).1 == if u in s.users then Rejected else UserPut(u, [])
    ensures Step(s, DropUser(u)).1 == if u in s.users then UserDropped(u) else Rejected
    ensures Step(s, SetActive(u, isActive, hash)).1 == if u in s.users then Quiet else Rejected
  {
  }
}
