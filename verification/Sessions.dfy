/** Logins, refresh tokens, single-use action tokens and recovery codes as one state machine over requests. */
module Sessions {
  import opened Text
  import opened Wrappers

  // ---------------------------------------------------------------- tables

  /** Random tokens are unique; they are numbered in the order they are drawn. */
  type Token = nat

  datatype User =
    User(isActive: bool, passwordHash: string, totpEnabled: bool, totpSecret: string, recoveryCodes: seq<string>)

  datatype RefreshToken = RefreshToken(userID: string, orgID: string, expiresAt: int, revokedAt: Option<int>)

  datatype Kind = LoginMFA | PasswordReset | MFAReset | MFASetup

  datatype ActionToken = ActionToken(
    kind: Kind, userID: string, orgID: string, expiresAt: int, consumedAt: Option<int>,
      secret: string, recoveryCodes: seq<string>)

  /** Memberships map a user and an organisation to whether the status is "active"; the lifetime of
      refresh tokens is configuration. */
  datatype State = State(
    refreshTTL: nat,
    now: int,
    users: map<string, User>,
    memberships: map<(string, string), bool>,
    refreshTokens: map<Token, RefreshToken>,
    actionTokens: map<Token, ActionToken>,
    next: Token)

  const MINUTE := 60

  // ---------------------------------------------------------------- requests and outcomes

  /** Identifiers and e-mail addresses stand as the user row they resolve to; checks of passwords and
      one-time codes stand as their verdict. */
  datatype Event =
    | Tick(duration: nat)
    | PutUser(userID: string, user: User)
    | DropUser(userID: string)
    | SetActive(userID: string, isActive: bool, passwordHash: string)
    | PutMembership(userID: string, orgID: string, active: bool)
    | DropMembership(userID: string, orgID: string)
    | Login(userID: string, orgID: string, passwordOk: bool)
    | VerifyLoginTOTP(token: Token, code: string, totpOk: bool)
    | Refresh(token: Token)
    | RequestReset(userID: string, kind: Kind)
    | ResetPassword(token: Token, newPasswordLength: nat, hash: string)
    | ConfirmMFAReset(token: Token)
    | BeginMFASetup(userID: string, orgID: string, secret: string, recoveryCodes: seq<string>)
    | ConfirmMFASetup(principalID: string, token: Token, totpOk: bool)

  datatype Outcome =
    | Quiet
    | Rejected
    | Sent(action: Token, kind: Kind)
    | LoggedIn(issued: Token, userID: string)
    | LoggedInMFA(action: Token, issued: Token, userID: string, recovery: Option<string>)
    | Rotated(spent: Token, issued: Token, userID: string)
    | PasswordChanged(action: Token, userID: string)
    | MFACleared(action: Token, userID: string)
    | MFAInstalled(action: Token, userID: string, codes: seq<string>)
    | UserPut(userID: string, codes: seq<string>)
    | UserDropped(userID: string)

  // ---------------------------------------------------------------- one request

  function Issue(s: State, userID: string, orgID: string): State {
    s.(refreshTokens := s.refreshTokens[s.next := RefreshToken(userID, orgID, s.now + s.refreshTTL, None)],
       next := s.next + 1)
  }

  function Send(s: State, action: ActionToken): State {
    s.(actionTokens := s.actionTokens[s.next := action], next := s.next + 1)
  }

  /** The token exists, is of the kind, was not consumed and has not expired. */
  predicate Usable(s: State, token: Token, kind: Kind) {
    && token in s.actionTokens && s.actionTokens[token].kind == kind
    && s.actionTokens[token].consumedAt.None? && s.actionTokens[token].expiresAt >= s.now
  }

  function Consume(s: State, token: Token): State
    requires token in s.actionTokens
  {
    s.(actionTokens := s.actionTokens[token := s.actionTokens[token].(consumedAt := Some(s.now))])
  }

  predicate Member(s: State, userID: string, orgID: string) {
    userID in s.users && (userID, orgID) in s.memberships
  }

  /** The first stored recovery code equal to the given code up to case and white space. */
  function MatchCode(codes: seq<string>, code: string): (r: Option<nat>)
    ensures r.Some? ==> r.value < |codes| && EqualFold(TrimSpace(codes[r.value]), code)
  {
    if codes == [] then None
    else if EqualFold(TrimSpace(codes[0]), code) then Some(0)
    else
      match MatchCode(codes[1..], code)
      case None => None
      case Some(i) => Some(i + 1)
  }

  function Without(codes: seq<string>, i: nat): seq<string>
    requires i < |codes|
  {
    codes[..i] + codes[i + 1..]
  }

  /** Whether the code is accepted, which stored recovery code it uses up, and the codes that remain. */
  function ConsumeTOTP(codes: seq<string>, code: string, totpOk: bool): (bool, Option<string>, seq<string>) {
    if totpOk then (true, None, codes)
    else
      match MatchCode(codes, TrimSpace(code))
      case None => (false, None, codes)
      case Some(i) => (true, Some(codes[i]), Without(codes, i))
  }

  function RevokeAll(tokens: map<Token, RefreshToken>, userID: string, now: int): map<Token, RefreshToken> {
    map t | t in tokens ::
      if tokens[t].userID == userID && tokens[t].revokedAt.None? then tokens[t].(revokedAt := Some(now)) else tokens[t]
  }

  function Step(s: State, e: Event): (State, Outcome) {
    match e
    case Tick(d) => (s.(now := s.now + d), Quiet)
    case PutUser(id, user) =>
      if id in s.users then (s, Rejected)
      else (s.(users := s.users[id := user.(recoveryCodes := [])]), UserPut(id, []))
    case DropUser(id) =>
      (s.(users := s.users - {id}), if id in s.users then UserDropped(id) else Rejected)
    case SetActive(id, isActive, hash) =>
      if id in s.users then
        (s.(users := s.users[id := s.users[id].(isActive := isActive, passwordHash := hash)]), Quiet)
      else (s, Rejected)
    case PutMembership(u, o, active) => (s.(memberships := s.memberships[(u, o) := active]), Quiet)
    case DropMembership(u, o) => (s.(memberships := s.memberships - {(u, o)}), Quiet)
    case Login(u, o, passwordOk) =>
      if !Member(s, u, o) || !s.users[u].isActive || !s.memberships[(u, o)] || !passwordOk then (s, Rejected)
      else if s.users[u].totpEnabled then
        (Send(s, ActionToken(LoginMFA, u, o, s.now + 5 * MINUTE, None, "", [])), Sent(s.next, LoginMFA))
      else (Issue(s, u, o), LoggedIn(s.next, u))
    case VerifyLoginTOTP(t, code, totpOk) =>
      if !Usable(s, t, LoginMFA) then (s, Rejected)
      else
        var a := s.actionTokens[t];
        if !Member(s, a.userID, a.orgID) then (s, Rejected)
        else
          var user := s.users[a.userID];
          var (ok, used, rest) := ConsumeTOTP(user.recoveryCodes, code, totpOk);
          if !ok then (s, Rejected)
          else
            var s1 := s.(users := s.users[a.userID := user.(recoveryCodes := rest)]);
            (Issue(Consume(s1, t), a.userID, a.orgID), LoggedInMFA(t, s.next, a.userID, used))
    case Refresh(t) =>
      if t !in s.refreshTokens || s.refreshTokens[t].revokedAt.Some? || s.refreshTokens[t].expiresAt < s.now then
        (s, Rejected)
      else
        var r := s.refreshTokens[t];
        if !Member(s, r.userID, r.orgID) then (s, Rejected)
        else
          (Issue(s.(refreshTokens := s.refreshTokens[t := r.(revokedAt := Some(s.now))]), r.userID, r.orgID),
           Rotated(t, s.next, r.userID))
    case RequestReset(u, kind) =>
      if u !in s.users || !(kind.PasswordReset? || kind.MFAReset?) then (s, Rejected)
      else (Send(s, ActionToken(kind, u, "", s.now + 30 * MINUTE, None, "", [])), Sent(s.next, kind))
    case ResetPassword(t, length, hash) =>
      if !Usable(s, t, PasswordReset) || length < 8 then (s, Rejected)
      else
        var u := s.actionTokens[t].userID;
        var s1 := s.(users := if u in s.users then s.users[u := s.users[u].(passwordHash := hash)] else s.users,
                     refreshTokens := RevokeAll(s.refreshTokens, u, s.now));
        (Consume(s1, t), PasswordChanged(t, u))
    case ConfirmMFAReset(t) =>
      if !Usable(s, t, MFAReset) then (s, Rejected)
      else
        var u := s.actionTokens[t].userID;
        var s1 := s.(users :=
          if u in s.users then s.users[u := s.users[u].(totpEnabled := false, totpSecret := "", recoveryCodes := [])]
            else s.users);
        (Consume(s1, t), MFACleared(t, u))
    case BeginMFASetup(u, o, secret, codes) =>
      if !Member(s, u, o) then (s, Rejected)
      else (Send(s, ActionToken(MFASetup, u, o, s.now + 10 * MINUTE, None, secret, codes)), Sent(s.next, MFASetup))
    case ConfirmMFASetup(principal, t, totpOk) =>
      if !Usable(s, t, MFASetup) || s.actionTokens[t].userID != principal || !totpOk then (s, Rejected)
      else
        var a := s.actionTokens[t];
        var s1 := s.(users :=
          if principal in s.users then
            s.users[principal :=
              s.users[principal].(totpEnabled := true, totpSecret := a.secret, recoveryCodes := a.recoveryCodes)]
          else s.users);
        (Consume(s1, t), MFAInstalled(t, principal, a.recoveryCodes))
  }

  // ---------------------------------------------------------------- runs

  /** The state after the events, and the outcome of each. */
  function Run(s: State, events: seq<Event>): (r: (State, seq<Outcome>))
    ensures |r.1| == |events|
  {
    if events == [] then (s, [])
    else
      var before := Run(s, events[..|events| - 1]);
      var last := Step(before.0, events[|events| - 1]);
      (last.0, before.1 + [last.1])
  }

  lemma RunPrefix(s: State, events: seq<Event>, k: nat)
    requires k <= |events|
    ensures Run(s, events[..k]).1 == Run(s, events).1[..k]
  {
    if k < |events| {
      var init := events[..|events| - 1];
      RunPrefix(s, init, k);
      assert init[..k] == events[..k];
    } else {
      assert events[..k] == events;
    }
  }

  predicate Start(s: State) { s.refreshTokens == map[] && s.actionTokens == map[] }

  /** The refresh token an outcome hands out. */
  predicate Issues(o: Outcome) { o.LoggedIn? || o.LoggedInMFA? || o.Rotated? }

  /** The action token an outcome puts into effect, and the kind it must have. */
  predicate TakesEffect(o: Outcome) { o.LoggedInMFA? || o.PasswordChanged? || o.MFACleared? || o.MFAInstalled? }

  function EffectKind(o: Outcome): Kind
    requires TakesEffect(o)
  {
    match o
    case LoggedInMFA(_, _, _, _) => LoginMFA
    case PasswordChanged(_, _) => PasswordReset
    case MFACleared(_, _) => MFAReset
    case MFAInstalled(_, _, _) => MFASetup
  }

  // ---------------------------------------------------------------- what one request can do to the token tables

  predicate Revoked(s: State, t: Token) { t in s.refreshTokens && s.refreshTokens[t].revokedAt.Some? }

  predicate Live(s: State, t: Token) { t in s.refreshTokens && s.refreshTokens[t].revokedAt.None? }

  predicate Consumed(s: State, t: Token) { t in s.actionTokens && s.actionTokens[t].consumedAt.Some? }

  predicate Numbered(s: State) {
    && (forall t :: t in s.refreshTokens ==> t < s.next)
    && (forall t :: t in s.actionTokens ==> t < s.next)
  }

  /** Refresh tokens are only added under the next number, keep their user, and never come back to life. */
  predicate RefreshFacts(s: State, s': State, o: Outcome) {
    && s'.refreshTokens.Keys == s.refreshTokens.Keys + (if Issues(o) then {s.next} else {})
    && (Issues(o) ==> o.issued == s.next && s'.refreshTokens[s.next].userID == o.userID)
    && (forall t :: t in s.refreshTokens && t < s.next ==>
          s'.refreshTokens[t].userID == s.refreshTokens[t].userID && (Revoked(s, t) ==> Revoked(s', t)))
    && (o.Rotated? ==>
        && Live(s, o.spent) && s.refreshTokens[o.spent].userID == o.userID
        && s.refreshTokens[o.spent].expiresAt >= s.now && (o.spent < s.next ==> Revoked(s', o.spent)))
    && (o.PasswordChanged? ==>
        forall t :: t in s'.refreshTokens && s'.refreshTokens[t].userID == o.userID ==> Revoked(s', t))
  }

  /** Equal but for the time of consumption. */
  predicate SameBut(a: ActionToken, b: ActionToken) {
    && a.kind == b.kind && a.userID == b.userID && a.orgID == b.orgID && a.expiresAt == b.expiresAt
    && a.secret == b.secret && a.recoveryCodes == b.recoveryCodes
  }

  /** Action tokens are only added under the next number, keep everything but their consumption, and take effect
      only while usable for the kind of the effect. */
  predicate ActionFacts(s: State, s': State, o: Outcome) {
    && s'.actionTokens.Keys == s.actionTokens.Keys + (if o.Sent? then {s.next} else {})
    && (o.Sent? ==> o.action == s.next && s'.actionTokens[s.next].kind == o.kind)
    && (forall t :: t in s.actionTokens && t < s.next ==>
          && SameBut(s.actionTokens[t], s'.actionTokens[t])
          && (Consumed(s, t) ==> Consumed(s', t)))
    && (TakesEffect(o) ==> Usable(s, o.action, EffectKind(o)) && s.actionTokens[o.action].userID == o.userID &&
                           Consumed(s', o.action))
  }

  /** The only ways a request touches the refresh tokens: not at all, adding one for a login, replacing one, revoking a
      user's. */
  ghost predicate RefreshChange(s: State, s': State, o: Outcome) {
    || (s'.refreshTokens == s.refreshTokens && !Issues(o) && !o.PasswordChanged?)
    || ((o.LoggedIn? || o.LoggedInMFA?) && o.issued == s.next &&
        exists r: RefreshToken :: r.userID == o.userID && s'.refreshTokens == s.refreshTokens[s.next := r])
    || (o.Rotated? && o.issued == s.next && Live(s, o.spent) && s.refreshTokens[o.spent].userID == o.userID &&
        s.refreshTokens[o.spent].expiresAt >= s.now &&
        exists r: RefreshToken :: r.userID == o.userID &&
          s'.refreshTokens ==
            s.refreshTokens[o.spent := s.refreshTokens[o.spent].(revokedAt := Some(s.now))][s.next := r])
    || (o.PasswordChanged? && s'.refreshTokens == RevokeAll(s.refreshTokens, o.userID, s.now))
  }

  lemma RefreshChanges(s: State, e: Event)
    ensures RefreshChange(s, Step(s, e).0, Step(s, e).1)
  {
    hide ConsumeTOTP, RevokeAll, Usable;
  }

  lemma RefreshChangeFacts(s: State, s': State, o: Outcome)
    requires RefreshChange(s, s', o)
    ensures RefreshFacts(s, s', o)
  {
  }

  lemma RefreshStep(s: State, e: Event)
    ensures RefreshFacts(s, Step(s, e).0, Step(s, e).1)
  {
    RefreshChanges(s, e);
    RefreshChangeFacts(s, Step(s, e).0, Step(s, e).1);
  }

  /** The only three ways a request touches the action tokens: not at all, adding one, consuming one. */
  ghost predicate ActionChange(s: State, s': State, o: Outcome) {
    || (s'.actionTokens == s.actionTokens && !o.Sent? && !TakesEffect(o))
    || (o.Sent? && o.action == s.next && exists a: ActionToken ::
       a.kind == o.kind && s'.actionTokens == s.actionTokens[s.next := a])
    || (TakesEffect(o) && Usable(s, o.action, EffectKind(o)) && s.actionTokens[o.action].userID == o.userID &&
        s'.actionTokens == Consume(s, o.action).actionTokens)
  }

  lemma ActionChanges(s: State, e: Event)
    ensures ActionChange(s, Step(s, e).0, Step(s, e).1)
  {
    hide ConsumeTOTP, RevokeAll;
  }

  lemma ActionStep(s: State, e: Event)
    ensures ActionFacts(s, Step(s, e).0, Step(s, e).1)
  {
    ActionChanges(s, e);
    var s', o := Step(s, e).0, Step(s, e).1;
    ChangeFacts(s, s', o);
  }

  lemma ConsumedFacts(s: State, s': State, o: Outcome)
    requires TakesEffect(o) && Usable(s, o.action, EffectKind(o)) && s.actionTokens[o.action].userID == o.userID
    requires s'.actionTokens == Consume(s, o.action).actionTokens
    ensures ActionFacts(s, s', o)
  {
  }

  lemma ChangeFacts(s: State, s': State, o: Outcome)
    requires ActionChange(s, s', o)
    ensures ActionFacts(s, s', o)
  {
    hide Usable;
    if TakesEffect(o) {
      ConsumedFacts(s, s', o);
    }
  }

  lemma NumberedStep(s: State, e: Event)
    requires Numbered(s)
    ensures Numbered(Step(s, e).0) && Step(s, e).0.next >= s.next
  {
  }

  // ---------------------------------------------------------------- refresh tokens over every run

  /** The login each refresh token descends from, as the position of that login in the log. */
  function ChainOf(log: seq<Outcome>): map<Token, nat> {
    if log == [] then map[]
    else
      var n := |log| - 1;
      NextChain(ChainOf(log[..n]), n, log[n])
  }

  function NextChain(chain: map<Token, nat>, n: nat, o: Outcome): map<Token, nat> {
    if o.LoggedIn? || o.LoggedInMFA? then chain[o.issued := n]
    else if o.Rotated? && o.spent in chain then chain[o.issued := chain[o.spent]]
    else chain
  }

  /** Every refresh token belongs to a chain, and each chain has at most one unrevoked token. */
  ghost predicate OneLivePerChain(s: State, chain: map<Token, nat>, bound: nat) {
    && chain.Keys == s.refreshTokens.Keys
    && (forall t :: t in chain ==> chain[t] < bound)
    && (forall a, b :: a in chain && b in chain && chain[a] == chain[b] && Live(s, a) && Live(s, b) ==> a == b)
  }

  lemma LiveBefore(s: State, s': State, o: Outcome, t: Token)
    requires Numbered(s) && RefreshFacts(s, s', o) && Live(s', t)
    ensures t == s.next || Live(s, t)
    ensures t == s.next ==> Issues(o)
  {
  }

  lemma ChainStep(s: State, s': State, chain: map<Token, nat>, bound: nat, o: Outcome)
    requires Numbered(s) && RefreshFacts(s, s', o) && OneLivePerChain(s, chain, bound)
    ensures OneLivePerChain(s', NextChain(chain, bound, o), bound + 1)
  {
    var chain' := NextChain(chain, bound, o);
    assert o.Rotated? ==> o.spent in chain;
    assert chain'.Keys == s'.refreshTokens.Keys;
    forall a, b | a in chain' && b in chain' && chain'[a] == chain'[b] && Live(s', a) && Live(s', b) ensures a == b {
      LiveBefore(s, s', o, a);
      LiveBefore(s, s', o, b);
    }
  }

  lemma {:induction false} ChainsOverRuns(s: State, events: seq<Event>)
    requires Start(s)
    ensures var (s', log) := Run(s, events);
            Numbered(s') && OneLivePerChain(s', ChainOf(log), |log|)
  {
    if events != [] {
      var n := |events| - 1;
      ChainsOverRuns(s, events[..n]);
      var (s1, log1) := Run(s, events[..n]);
      RefreshStep(s1, events[n]);
      NumberedStep(s1, events[n]);
      var (s2, o) := Step(s1, events[n]);
      ChainStep(s1, s2, ChainOf(log1), n, o);
      assert (log1 + [o])[..n] == log1;
    }
  }

  /** In every run each login's chain of refresh tokens has at most one unrevoked token. */
  lemma AtMostOneLiveToken(s: State, events: seq<Event>, a: Token, b: Token)
    requires Start(s)
    requires var (s', log) := Run(s, events);
             a in ChainOf(log) && b in ChainOf(log) && ChainOf(log)[a] == ChainOf(log)[b] && Live(s', a) && Live(s', b)
    ensures a == b
  {
    ChainsOverRuns(s, events);
  }

  /** What the log says about revoked refresh tokens. */
  ghost predicate LogRevoked(s: State, log: seq<Outcome>) {
    && (forall i :: 0 <= i < |log| && log[i].Rotated? ==> Revoked(s, log[i].spent))
    && (forall i :: 0 <= i < |log| && Issues(log[i]) ==>
          log[i].issued in s.refreshTokens && s.refreshTokens[log[i].issued].userID == log[i].userID)
    && (forall i, j ::
       0 <= i < j < |log| && Issues(log[i]) && log[j].PasswordChanged? && log[i].userID == log[j].userID ==>
          Revoked(s, log[i].issued))
  }

  lemma LogRevokedStep(s: State, s': State, log: seq<Outcome>, o: Outcome)
    requires Numbered(s) && RefreshFacts(s, s', o) && LogRevoked(s, log)
    ensures LogRevoked(s', log + [o])
  {
    var grown := log + [o];
    forall i | 0 <= i < |log| && Issues(log[i])
      ensures log[i].issued in s'.refreshTokens && s'.refreshTokens[log[i].issued].userID == log[i].userID
    {
    }
    forall i, j | 0 <= i < j < |grown| && Issues(grown[i]) && grown[j].PasswordChanged? &&
      grown[i].userID == grown[j].userID
      ensures Revoked(s', grown[i].issued)
    {
      assert grown[i] == log[i];
      if j < |log| {
        assert grown[j] == log[j];
      }
    }
  }

  lemma {:induction false} LogRevokedOverRuns(s: State, events: seq<Event>)
    requires Start(s)
    ensures var (s', log) := Run(s, events); Numbered(s') && LogRevoked(s', log)
  {
    if events != [] {
      var n := |events| - 1;
      LogRevokedOverRuns(s, events[..n]);
      var (s1, log1) := Run(s, events[..n]);
      RefreshStep(s1, events[n]);
      NumberedStep(s1, events[n]);
      LogRevokedStep(s1, Step(s1, events[n]).0, log1, Step(s1, events[n]).1);
    }
  }

  /** The outcome at position k is the step taken from the state of the run so far. */
  lemma OutcomeAt(s: State, events: seq<Event>, k: nat)
    requires k < |events|
    ensures Run(s, events).1[..k] == Run(s, events[..k]).1
    ensures Run(s, events).1[k] == Step(Run(s, events[..k]).0, events[k]).1
  {
    RunPrefix(s, events, k);
    RunPrefix(s, events, k + 1);
    assert events[..k + 1][..k] == events[..k];
    assert Run(s, events).1[k] == Run(s, events).1[..k + 1][k];
  }

  /** In every run no refresh token is accepted twice, and none issued before its user's password was reset
      is accepted afterwards. */
  lemma RefreshTokensSingleUse(s: State, events: seq<Event>, i: nat, k: nat)
    requires Start(s) && i < k < |events|
    ensures var log := Run(s, events).1;
            && !(log[i].Rotated? && log[k].Rotated? && log[i].spent == log[k].spent)
            && (forall j :: i < j < k && Issues(log[i]) && log[j].PasswordChanged? && log[j].userID == log[i].userID ==>
                  !(log[k].Rotated? && log[k].spent == log[i].issued))
  {
    OutcomeAt(s, events, k);
    LogRevokedOverRuns(s, events[..k]);
    var (s1, log1) := Run(s, events[..k]);
    RefreshStep(s1, events[k]);
    var log := Run(s, events).1;
    assert forall j :: 0 <= j < k ==> log[j] == log1[j];
  }

  // ---------------------------------------------------------------- action tokens over every run

  ghost predicate LogConsumed(s: State, log: seq<Outcome>) {
    && (forall i :: 0 <= i < |log| && TakesEffect(log[i]) ==> Consumed(s, log[i].action))
    && (forall i :: 0 <= i < |log| && log[i].Sent? ==>
          log[i].action in s.actionTokens && s.actionTokens[log[i].action].kind == log[i].kind)
    && (forall t :: t in s.actionTokens ==> exists i :: 0 <= i < |log| && log[i].Sent? && log[i].action == t)
  }

  lemma LogConsumedStep(s: State, s': State, log: seq<Outcome>, o: Outcome)
    requires Numbered(s) && ActionFacts(s, s', o) && LogConsumed(s, log)
    ensures LogConsumed(s', log + [o])
  {
    var grown := log + [o];
    forall i | 0 <= i < |grown| && TakesEffect(grown[i]) ensures Consumed(s', grown[i].action) {
      if i < |log| {
        assert grown[i] == log[i];
      }
    }
    forall i | 0 <= i < |grown| && grown[i].Sent?
      ensures grown[i].action in s'.actionTokens && s'.actionTokens[grown[i].action].kind == grown[i].kind
    {
      if i < |log| {
        assert grown[i] == log[i];
      }
    }
    forall t | t in s'.actionTokens ensures exists i :: 0 <= i < |grown| && grown[i].Sent? && grown[i].action == t {
      if t in s.actionTokens {
        var i :| 0 <= i < |log| && log[i].Sent? && log[i].action == t;
        assert grown[i] == log[i];
      } else {
        assert grown[|log|] == o;
      }
    }
  }

  lemma {:induction false} LogConsumedOverRuns(s: State, events: seq<Event>)
    requires Start(s)
    ensures var (s', log) := Run(s, events); Numbered(s') && LogConsumed(s', log)
  {
    if events != [] {
      var n := |events| - 1;
      LogConsumedOverRuns(s, events[..n]);
      var (s1, log1) := Run(s, events[..n]);
      ActionStep(s1, events[n]);
      NumberedStep(s1, events[n]);
      LogConsumedStep(s1, Step(s1, events[n]).0, log1, Step(s1, events[n]).1);
    }
  }

  /** In every run an action token takes effect at most once, only if it was sent for that very kind of effect,
      and not after its expiry. */
  lemma ActionTokensSingleUse(s: State, events: seq<Event>, k: nat)
    requires Start(s) && k < |events|
    requires TakesEffect(Run(s, events).1[k])
    ensures var log, current := Run(s, events).1, Run(s, events[..k]).0;
            var action, kind := log[k].action, EffectKind(log[k]);
            && (forall i :: 0 <= i < k && TakesEffect(log[i]) ==> log[i].action != action)
            && (exists i :: 0 <= i < k && log[i] == Sent(action, kind))
            && action in current.actionTokens && current.now <= current.actionTokens[action].expiresAt
  {
    hide Run;
    OutcomeAt(s, events, k);
    LogConsumedOverRuns(s, events[..k]);
    var (s1, log1) := Run(s, events[..k]);
    ActionStep(s1, events[k]);
    var log := Run(s, events).1;
    assert forall j :: 0 <= j < k ==> log[j] == log1[j];
    var action := log[k].action;
    var i :| 0 <= i < |log1| && log1[i].Sent? && log1[i].action == action;
    assert log[i] == Sent(action, EffectKind(log[k]));
  }

  // ---------------------------------------------------------------- lifetimes over every run

  function Lifetime(kind: Kind): nat {
    match kind
    case LoginMFA => 5 * MINUTE
    case PasswordReset => 30 * MINUTE
    case MFAReset => 30 * MINUTE
    case MFASetup => 10 * MINUTE
  }

  lemma SendingDates(s: State, e: Event)
    requires Step(s, e).1.Sent?
    ensures s.next in Step(s, e).0.actionTokens
    ensures Step(s, e).0.actionTokens[s.next].expiresAt == s.now + Lifetime(Step(s, e).1.kind)
  {
  }

  lemma IssuingDates(s: State, e: Event)
    ensures var (s', o) := Step(s, e);
            && s'.refreshTTL == s.refreshTTL
            && (Issues(o) ==> s.next in s'.refreshTokens && s'.refreshTokens[s.next].expiresAt == s.now + s.refreshTTL)
  {
  }

  lemma RefreshDatesKept(s: State, s': State, o: Outcome, t: Token)
    requires RefreshChange(s, s', o) && t in s.refreshTokens && t < s.next
    ensures t in s'.refreshTokens && s'.refreshTokens[t].expiresAt == s.refreshTokens[t].expiresAt
  {
  }

  /** Where in the run a stored action token was sent. */
  lemma {:induction false} SentAt(s: State, events: seq<Event>, t: Token) returns (i: nat)
    requires Start(s) && t in Run(s, events).0.actionTokens
    ensures i < |events|
    ensures var a := Run(s, events).0.actionTokens[t];
            Run(s, events).1[i] == Sent(t, a.kind) && a.expiresAt == Run(s, events[..i]).0.now + Lifetime(a.kind)
  {
    var n := |events| - 1;
    var init := events[..n];
    var s1 := Run(s, init).0;
    LogConsumedOverRuns(s, init);
    ActionStep(s1, events[n]);
    if t in s1.actionTokens {
      i := SentAt(s, init, t);
      assert init[..i] == events[..i];
    } else {
      i := n;
      SendingDates(s1, events[n]);
    }
  }

  /** Where in the run a stored refresh token was issued. */
  lemma {:induction false} IssuedAt(s: State, events: seq<Event>, t: Token) returns (i: nat)
    requires Start(s) && t in Run(s, events).0.refreshTokens
    ensures i < |events| && Run(s, events).0.refreshTTL == s.refreshTTL
    ensures var r := Run(s, events).0.refreshTokens[t];
            && Issues(Run(s, events).1[i]) && Run(s, events).1[i].issued == t && Run(s, events).1[i].userID == r.userID
            && r.expiresAt == Run(s, events[..i]).0.now + s.refreshTTL
  {
    var n := |events| - 1;
    var init := events[..n];
    var (s1, o) := (Run(s, init).0, Step(Run(s, init).0, events[n]).1);
    LogConsumedOverRuns(s, init);
    TTLKept(s, init);
    RefreshStep(s1, events[n]);
    RefreshChanges(s1, events[n]);
    IssuingDates(s1, events[n]);
    if t in s1.refreshTokens {
      RefreshDatesKept(s1, Run(s, events).0, o, t);
      i := IssuedAt(s, init, t);
      assert init[..i] == events[..i];
    } else {
      i := n;
    }
  }

  lemma {:induction false} TTLKept(s: State, events: seq<Event>)
    ensures Run(s, events).0.refreshTTL == s.refreshTTL
  {
    if events != [] {
      TTLKept(s, events[..|events| - 1]);
      IssuingDates(Run(s, events[..|events| - 1]).0, events[|events| - 1]);
    }
  }

  /** In every run what takes effect was sent for that kind at most its lifetime ago: five minutes for a login,
      thirty for a reset, ten for a setup. */
  lemma ActionsWithinLifetime(s: State, events: seq<Event>, k: nat)
    requires Start(s) && k < |events| && TakesEffect(Run(s, events).1[k])
    ensures var log := Run(s, events).1;
            var kind := EffectKind(log[k]);
            exists i :: 0 <= i < k && log[i] == Sent(log[k].action, kind) &&
                        Run(s, events[..k]).0.now <= Run(s, events[..i]).0.now + Lifetime(kind)
  {
    OutcomeAt(s, events, k);
    var s1 := Run(s, events[..k]).0;
    ActionStep(s1, events[k]);
    var i := SentAt(s, events[..k], Run(s, events).1[k].action);
    assert events[..k][..i] == events[..i];
    assert Run(s, events[..k]).1[i] == Run(s, events).1[i];
  }

  /** In every run an accepted refresh token was issued to that user at most the configured lifetime ago. */
  lemma RefreshWithinLifetime(s: State, events: seq<Event>, k: nat)
    requires Start(s) && k < |events| && Run(s, events).1[k].Rotated?
    ensures var log := Run(s, events).1;
            exists i :: 0 <= i < k && Issues(log[i]) && log[i].issued == log[k].spent &&
              log[i].userID == log[k].userID &&
                        Run(s, events[..k]).0.now <= Run(s, events[..i]).0.now + s.refreshTTL
  {
    OutcomeAt(s, events, k);
    var s1 := Run(s, events[..k]).0;
    RefreshStep(s1, events[k]);
    var i := IssuedAt(s, events[..k], Run(s, events).1[k].spent);
    assert events[..k][..i] == events[..i];
    assert Run(s, events[..k]).1[i] == Run(s, events).1[i];
  }

  // ---------------------------------------------------------------- recovery codes over every run

  /** The codes last installed for a user and the recovery codes accepted from that user since. */
  datatype Ledger = Ledger(installed: seq<string>, accepted: seq<string>)

  function LedgerOf(s: State, log: seq<Outcome>, userID: string): Ledger {
    if log == [] then Ledger(if userID in s.users then s.users[userID].recoveryCodes else [], [])
    else NextLedger(LedgerOf(s, log[..|log| - 1], userID), log[|log| - 1], userID)
  }

  function NextLedger(l: Ledger, o: Outcome, userID: string): Ledger {
    match o
    case MFAInstalled(_, u, codes) => if u == userID then Ledger(codes, []) else l
    case MFACleared(_, u) => if u == userID then Ledger([], []) else l
    case UserPut(u, codes) => if u == userID then Ledger(codes, []) else l
    case LoggedInMFA(_, _, u, recovery) =>
      if u == userID && recovery.Some? then l.(accepted := l.accepted + [recovery.value]) else l
    case _ => l
  }

  /** Same elements in the same order, with some left out. */
  predicate Sublist(a: seq<string>, b: seq<string>) {
    a == [] || (b != [] && ((a[0] == b[0] && Sublist(a[1..], b[1..])) || Sublist(a, b[1..])))
  }

  lemma SublistSelf(a: seq<string>)
    ensures Sublist(a, a)
  {
  }

  lemma SublistSkip(a: seq<string>, b: seq<string>)
    requires b != [] && Sublist(a, b[1..])
    ensures Sublist(a, b)
  {
  }

  lemma {:induction false} SublistWithout(a: seq<string>, b: seq<string>, i: nat)
    requires i < |a| && Sublist(a, b)
    ensures Sublist(Without(a, i), b)
    decreases |b|
  {
    var rest := Without(a, i);
    if a[0] == b[0] && Sublist(a[1..], b[1..]) {
      if i == 0 {
        assert rest == a[1..];
        SublistSkip(rest, b);
      } else {
        SublistWithout(a[1..], b[1..], i - 1);
        assert rest[0] == a[0] && rest[1..] == Without(a[1..], i - 1);
      }
    } else {
      SublistWithout(a, b[1..], i);
      SublistSkip(rest, b);
    }
  }

  lemma WithoutMultiset(codes: seq<string>, i: nat)
    requires i < |codes|
    ensures multiset(codes) == multiset(Without(codes, i)) + multiset{codes[i]}
  {
    assert codes == codes[..i] + [codes[i]] + codes[i + 1..];
  }

  /** The remaining codes are the installed ones in their order, without exactly the accepted ones. */
  ghost predicate Balanced(l: Ledger, remaining: seq<string>) {
    Sublist(remaining, l.installed) && multiset(l.installed) == multiset(remaining) + multiset(l.accepted)
  }

  lemma BalancedAfterUse(l: Ledger, remaining: seq<string>, i: nat)
    requires i < |remaining| && Balanced(l, remaining)
    ensures Balanced(l.(accepted := l.accepted + [remaining[i]]), Without(remaining, i))
  {
    SublistWithout(remaining, l.installed, i);
    WithoutMultiset(remaining, i);
  }

  lemma BalancedFresh(codes: seq<string>)
    ensures Balanced(Ledger(codes, []), codes)
  {
    SublistSelf(codes);
  }

  /** What one request does to a user's stored codes. */
  ghost predicate CodesFacts(s: State, s': State, o: Outcome, u: string) {
    u in s'.users ==>
      var codes' := s'.users[u].recoveryCodes;
      if (o.MFAInstalled? || o.UserPut?) && o.userID == u then codes' == o.codes
      else if o.MFACleared? && o.userID == u then codes' == []
      else if o.LoggedInMFA? && o.userID == u && o.recovery.Some? then
        u in s.users && exists i :: 0 <= i < |s.users[u].recoveryCodes| &&
                                    s.users[u].recoveryCodes[i] == o.recovery.value &&
                                      codes' == Without(s.users[u].recoveryCodes, i)
      else u in s.users && codes' == s.users[u].recoveryCodes
  }

  lemma VerifyCodes(s: State, t: Token, code: string, totpOk: bool, u: string)
    ensures var e := VerifyLoginTOTP(t, code, totpOk); CodesFacts(s, Step(s, e).0, Step(s, e).1, u)
  {
    hide ConsumeTOTP, MatchCode, Without;
    if t in s.actionTokens {
      var a := s.actionTokens[t];
      if Member(s, a.userID, a.orgID) {
        CodesConsumed(s.users[a.userID].recoveryCodes, code, totpOk);
      }
    }
  }

  /** Accepting a code leaves the codes alone or removes the one used. */
  lemma CodesConsumed(codes: seq<string>, code: string, totpOk: bool)
    ensures var (ok, used, rest) := ConsumeTOTP(codes, code, totpOk);
            ok ==>
              if used.None? then rest == codes
              else exists i :: 0 <= i < |codes| && codes[i] == used.value && rest == Without(codes, i)
  {
    hide EqualFold, TrimSpace;
  }

  lemma TokenCodes(s: State, e: Event, u: string)
    requires e.ResetPassword? || e.ConfirmMFAReset? || e.ConfirmMFASetup?
    ensures CodesFacts(s, Step(s, e).0, Step(s, e).1, u)
  {
    hide RevokeAll, Usable, ConsumeTOTP, Without;
  }

  lemma OtherCodes(s: State, e: Event, u: string)
    requires !e.VerifyLoginTOTP? && !e.ResetPassword? && !e.ConfirmMFAReset? && !e.ConfirmMFASetup?
    ensures CodesFacts(s, Step(s, e).0, Step(s, e).1, u)
  {
    hide RevokeAll, Usable, ConsumeTOTP, Without;
  }

  lemma CodesStep(s: State, e: Event, u: string)
    ensures CodesFacts(s, Step(s, e).0, Step(s, e).1, u)
  {
    hide CodesFacts, Step;
    if e.VerifyLoginTOTP? {
      VerifyCodes(s, e.token, e.code, e.totpOk, u);
    } else if e.ResetPassword? || e.ConfirmMFAReset? || e.ConfirmMFASetup? {
      TokenCodes(s, e, u);
    } else {
      OtherCodes(s, e, u);
    }
  }

  predicate UsesCode(o: Outcome, u: string) { o.LoggedInMFA? && o.userID == u && o.recovery.Some? }

  predicate SetsCodes(o: Outcome, u: string) { (o.MFAInstalled? || o.UserPut? || o.MFACleared?) && o.userID == u }

  lemma OtherOutcomesKeepLedger(l: Ledger, o: Outcome, u: string)
    requires !UsesCode(o, u) && !SetsCodes(o, u)
    ensures NextLedger(l, o, u) == l
  {
  }

  lemma SettingStartsLedger(l: Ledger, o: Outcome, u: string, s: State, s': State)
    requires SetsCodes(o, u) && CodesFacts(s, s', o, u) && u in s'.users
    ensures NextLedger(l, o, u) == Ledger(s'.users[u].recoveryCodes, [])
  {
  }

  lemma UseStep(s: State, s': State, o: Outcome, u: string, l: Ledger)
    requires UsesCode(o, u) && CodesFacts(s, s', o, u) && u in s'.users
    requires u in s.users && Balanced(l, s.users[u].recoveryCodes)
    ensures Balanced(NextLedger(l, o, u), s'.users[u].recoveryCodes)
  {
    hide Balanced, Without;
    var codes := s.users[u].recoveryCodes;
    var i :| 0 <= i < |codes| && codes[i] == o.recovery.value && s'.users[u].recoveryCodes == Without(codes, i);
    BalancedAfterUse(l, codes, i);
  }

  lemma CodesOfOthers(s: State, s': State, o: Outcome, u: string)
    requires CodesFacts(s, s', o, u) && u in s'.users && !SetsCodes(o, u)
    ensures u in s.users
    ensures !UsesCode(o, u) ==> s'.users[u].recoveryCodes == s.users[u].recoveryCodes
  {
  }

  lemma BalancedStep(s: State, s': State, o: Outcome, u: string, l: Ledger)
    requires CodesFacts(s, s', o, u) && (u in s.users ==> Balanced(l, s.users[u].recoveryCodes)) && u in s'.users
    ensures Balanced(NextLedger(l, o, u), s'.users[u].recoveryCodes)
  {
    if SetsCodes(o, u) {
      SettingStartsLedger(l, o, u, s, s');
      BalancedFresh(s'.users[u].recoveryCodes);
    } else {
      CodesOfOthers(s, s', o, u);
      if UsesCode(o, u) {
        UseStep(s, s', o, u, l);
      } else {
        OtherOutcomesKeepLedger(l, o, u);
      }
    }
  }

  /** In every run, since the last installation or reset the codes remaining plus the codes accepted are
      the codes installed, and those remaining keep their order. */
  lemma {:induction false} RecoveryCodesBalance(s: State, events: seq<Event>, u: string)
    requires u in Run(s, events).0.users
    ensures var (s', log) := Run(s, events);
            var l, remaining := LedgerOf(s, log, u), s'.users[u].recoveryCodes;
            Balanced(l, remaining) && |remaining| + |l.accepted| == |l.installed|
  {
    if events == [] {
      BalancedFresh(s.users[u].recoveryCodes);
    } else {
      var n := |events| - 1;
      var (s1, log1) := Run(s, events[..n]);
      if u in s1.users {
        RecoveryCodesBalance(s, events[..n], u);
      }
      var (s2, o) := Step(s1, events[n]);
      CodesStep(s1, events[n], u);
      assert (log1 + [o])[..n] == log1;
      BalancedStep(s1, s2, o, u, LedgerOf(s, log1, u));
    }
    var (s', log) := Run(s, events);
    var l, remaining := LedgerOf(s, log, u), s'.users[u].recoveryCodes;
    assert |multiset(l.installed)| == |multiset(remaining) + multiset(l.accepted)|;
  }

  // ---------------------------------------------------------------- the code

  lemma {:induction false} MatchLater(codes: seq<string>, code: string, k: nat)
    requires k <= |codes| && forall j :: 0 <= j < k ==> !EqualFold(TrimSpace(codes[j]), code)
    requires k < |codes| ==> EqualFold(TrimSpace(codes[k]), code)
    ensures MatchCode(codes, code) == if k < |codes| then Some(k) else None
  {
    if k > 0 {
      var tail := codes[1..];
      assert forall j :: 0 <= j < |tail| ==> tail[j] == codes[j + 1];
      MatchLater(tail, code, k - 1);
    }
  }

  class AuthService {
    const refreshTTL: nat
    var now: int
    var users: map<string, User>
    var memberships: map<(string, string), bool>
    var refreshTokens: map<Token, RefreshToken>
    var actionTokens: map<Token, ActionToken>
    var next: Token

    constructor (s: State)
      ensures Abstract() == s
    {
      refreshTTL, now, users, memberships := s.refreshTTL, s.now, s.users, s.memberships;
      refreshTokens, actionTokens, next := s.refreshTokens, s.actionTokens, s.next;
    }

    function Abstract(): State
      reads this
    {
      State(refreshTTL, now, users, memberships, refreshTokens, actionTokens, next)
    }

    method IssueLogin(userID: string, orgID: string) returns (issued: Token)
      modifies this`refreshTokens, this`next
      ensures Abstract() == Issue(old(Abstract()), userID, orgID) && issued == old(next)
    {
      issued := next;
      refreshTokens := refreshTokens[issued := RefreshToken(userID, orgID, now + refreshTTL, None)];
      next := next + 1;
    }

    method CreateActionToken(action: ActionToken) returns (raw: Token)
      modifies this`actionTokens, this`next
      ensures Abstract() == Send(old(Abstract()), action) && raw == old(next)
    {
      raw := next;
      actionTokens := actionTokens[raw := action];
      next := next + 1;
    }

    method GetActionToken(kind: Kind, raw: Token) returns (action: Option<ActionToken>)
      ensures action.Some? <==> Usable(Abstract(), raw, kind)
      ensures action.Some? ==> action.value == actionTokens[raw]
    {
      if raw !in actionTokens || actionTokens[raw].kind != kind {
        return None;  // invalid token
      }
      var found := actionTokens[raw];
      if found.consumedAt.Some? || found.expiresAt < now {
        return None;  // token expired
      }
      action := Some(found);
    }

    method MarkConsumed(raw: Token)
      requires raw in actionTokens
      modifies this`actionTokens
      ensures Abstract() == Consume(old(Abstract()), raw)
    {
      actionTokens := actionTokens[raw := actionTokens[raw].(consumedAt := Some(now))];
    }

    /** Tries the one-time code, then the recovery codes in order; an accepted recovery code is removed. */
    method ConsumeCode(userID: string, code: string, totpOk: bool) returns (ok: bool, used: Option<string>)
      requires userID in users
      modifies this`users
      ensures var (accepted, spent, rest) := ConsumeTOTP(old(users)[userID].recoveryCodes, code, totpOk);
              && ok == accepted && used == spent
              && users == (if accepted then old(users)[userID := old(users)[userID].(recoveryCodes := rest)]
                 else old(users))
    {
      hide EqualFold, TrimSpace;
      if totpOk {
        assert users == users[userID := users[userID].(recoveryCodes := users[userID].recoveryCodes)];
        return true, None;
      }
      var codes, wanted := users[userID].recoveryCodes, TrimSpace(code);
      for i := 0 to |codes|
        invariant users == old(users)
        invariant forall j :: 0 <= j < i ==> !EqualFold(TrimSpace(codes[j]), wanted)
      {
        if EqualFold(TrimSpace(codes[i]), wanted) {
          MatchLater(codes, wanted, i);
          users := users[userID := users[userID].(recoveryCodes := codes[..i] + codes[i + 1..])];
          return true, Some(codes[i]);
        }
      }
      MatchLater(codes, wanted, |codes|);
      return false, None;
    }

    method LoginRequest(userID: string, orgID: string, passwordOk: bool) returns (o: Outcome)
      modifies this
      ensures (Abstract(), o) == Step(old(Abstract()), Login(userID, orgID, passwordOk))
    {
      if userID !in users || (userID, orgID) !in memberships {
        return Rejected;
      }
      if !users[userID].isActive || !memberships[(userID, orgID)] {
        return Rejected;  // account is inactive
      }
      if !passwordOk {
        return Rejected;  // invalid credentials
      }
      if users[userID].totpEnabled {
        var raw := CreateActionToken(ActionToken(LoginMFA, userID, orgID, now + 5 * MINUTE, None, "", []));
        return Sent(raw, LoginMFA);
      }
      var issued := IssueLogin(userID, orgID);
      return LoggedIn(issued, userID);
    }

    method VerifyTOTPRequest(raw: Token, code: string, totpOk: bool) returns (o: Outcome)
      modifies this
      ensures (Abstract(), o) == Step(old(Abstract()), VerifyLoginTOTP(raw, code, totpOk))
    {
      var action := GetActionToken(LoginMFA, raw);
      if action.None? {
        return Rejected;
      }
      var userID, orgID := action.value.userID, action.value.orgID;
      if userID !in users || (userID, orgID) !in memberships {
        return Rejected;
      }
      var ok, used := ConsumeCode(userID, code, totpOk);
      if !ok {
        return Rejected;  // invalid authenticator code
      }
      MarkConsumed(raw);
      var issued := IssueLogin(userID, orgID);
      return LoggedInMFA(raw, issued, userID, used);
    }

    method RefreshRequest(raw: Token) returns (o: Outcome)
      modifies this
      ensures (Abstract(), o) == Step(old(Abstract()), Refresh(raw))
    {
      if raw !in refreshTokens {
        return Rejected;
      }
      var refresh := refreshTokens[raw];
      if refresh.revokedAt.Some? || refresh.expiresAt < now {
        return Rejected;
      }
      if refresh.userID !in users || (refresh.userID, refresh.orgID) !in memberships {
        return Rejected;
      }
      refreshTokens := refreshTokens[raw := refresh.(revokedAt := Some(now))];
      var issued := IssueLogin(refresh.userID, refresh.orgID);
      return Rotated(raw, issued, refresh.userID);
    }

    method RequestResetRequest(userID: string, kind: Kind) returns (o: Outcome)
      requires kind.PasswordReset? || kind.MFAReset?
      modifies this
      ensures (Abstract(), o) == Step(old(Abstract()), RequestReset(userID, kind))
    {
      if userID !in users {
        return Rejected;
      }
      var raw := CreateActionToken(ActionToken(kind, userID, "", now + 30 * MINUTE, None, "", []));
      return Sent(raw, kind);
    }

    method ResetPasswordRequest(raw: Token, newPasswordLength: nat, hash: string) returns (o: Outcome)
      modifies this
      ensures (Abstract(), o) == Step(old(Abstract()), ResetPassword(raw, newPasswordLength, hash))
    {
      var action := GetActionToken(PasswordReset, raw);
      if action.None? || newPasswordLength < 8 {
        return Rejected;
      }
      var userID := action.value.userID;
      if userID in users {
        users := users[userID := users[userID].(passwordHash := hash)];
      }
      refreshTokens := RevokeAll(refreshTokens, userID, now);
      MarkConsumed(raw);
      return PasswordChanged(raw, userID);
    }

    method ConfirmMFAResetRequest(raw: Token) returns (o: Outcome)
      modifies this
      ensures (Abstract(), o) == Step(old(Abstract()), ConfirmMFAReset(raw))
    {
      var action := GetActionToken(MFAReset, raw);
      if action.None? {
        return Rejected;
      }
      var userID := action.value.userID;
      if userID in users {
        users := users[userID := users[userID].(totpEnabled := false, totpSecret := "", recoveryCodes := [])];
      }
      MarkConsumed(raw);
      return MFACleared(raw, userID);
    }

    method BeginMFASetupRequest(userID: string, orgID: string, secret: string, codes: seq<string>) returns (o: Outcome)
      modifies this
      ensures (Abstract(), o) == Step(old(Abstract()), BeginMFASetup(userID, orgID, secret, codes))
    {
      if userID !in users || (userID, orgID) !in memberships {
        return Rejected;
      }
      var raw := CreateActionToken(ActionToken(MFASetup, userID, orgID, now + 10 * MINUTE, None, secret, codes));
      return Sent(raw, MFASetup);
    }

    method ConfirmMFASetupRequest(principalID: string, raw: Token, totpOk: bool) returns (o: Outcome)
      modifies this
      ensures (Abstract(), o) == Step(old(Abstract()), ConfirmMFASetup(principalID, raw, totpOk))
    {
      var action := GetActionToken(MFASetup, raw);
      if action.None? || action.value.userID != principalID || !totpOk {
        return Rejected;
      }
      var codes := action.value.recoveryCodes;
      if principalID in users {
        users := users[principalID :=
          users[principalID].(totpEnabled := true, totpSecret := action.value.secret, recoveryCodes := codes)];
      }
      MarkConsumed(raw);
      return MFAInstalled(raw, principalID, codes);
    }
  }
}
