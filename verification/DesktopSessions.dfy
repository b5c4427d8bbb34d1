/**
 * Desktop sessions: refresh rotation, revocation, expiry purges and access checks as they
 * interleave. Every SQL statement is one step; any number of requests may be between two of theirs.
 */
module DesktopSessions {
  import opened Sequences
  import opened Wrappers

  type Token = nat
  type SessionId = nat
  type UserId = nat
  type RequestId = nat

  /** Tokens are stored hashed; different tokens have different hashes. */
  datatype Hash = Sha256(token: Token)

  datatype Pair = Pair(access: Token, refresh: Token)

  /** A pair and when it was made. */
  datatype Grant = Grant(access: Token, refresh: Token, at: int)

  const ACCESS_TTL_MS := 3600 * 1000
  const REFRESH_TTL_MS := 30 * 24 * 3600 * 1000

  datatype Session = Session(
    user: UserId,
    access: Hash,
    accessExpires: int,
    refresh: Hash,
    refreshExpires: int,
    revokedAt: Option<int>)

  type Table = map<SessionId, Session>

  /** A refresh between its SELECT and its UPDATE. */
  datatype Selected = Selected(id: SessionId, token: Token, seenAt: int, expires: int)

  /** What has happened: a pair handed out, a refresh token spent on a new pair, an access granted. */
  datatype Event =
    | Issued(id: SessionId, user: UserId, next: Pair, at: int)
    | Redeemed(id: SessionId, spent: Token, next: Pair, seenAt: int, expires: int, at: int)
    | Accessed(id: SessionId, access: Token)

  /** The database and the requests in flight; below them what has happened and which names are used up. */
  datatype State = State(
    sessions: Table,
    users: set<UserId>,
    selected: map<RequestId, Selected>,
    log: seq<Event>,
    ids: set<SessionId>,
    tokens: set<Token>)

  /** `at` is a clock reading made before the statement is sent. */
  datatype Step =
    | AddUser(user: UserId)
    | RemoveUser(user: UserId)
    | Issue(id: SessionId, user: UserId, next: Pair, at: int)
    | RefreshSelect(req: RequestId, token: Token, at: int)
    | RefreshUpdate(req: RequestId, next: Pair, at: int)
    | Revoke(token: Token, at: int)
    | Purge(at: int)
    | ClearUser(user: UserId)
    | ReadAccess(token: Token, at: int)

  const Initial := State(map[], {}, map[], [], {}, {})

  // ---------------------------------------------------------------------------------------
  // The statements
  // ---------------------------------------------------------------------------------------

  function Without(t: Table, gone: Session -> bool): Table {
    map id | id in t && !gone(t[id]) :: t[id]
  }

  function Expired(at: int): Session -> bool {
    (row: Session) => row.refreshExpires < at || row.revokedAt.Some?
  }

  function OwnedBy(user: UserId): Session -> bool {
    (row: Session) => row.user == user
  }

  predicate MayRefresh(t: Table, users: set<UserId>, id: SessionId, token: Token, at: int) {
    && id in t && t[id].refresh == Sha256(token)
    && t[id].refreshExpires > at && t[id].revokedAt.None? && t[id].user in users
  }

  predicate MayAccess(t: Table, users: set<UserId>, id: SessionId, token: Token, at: int) {
    && id in t && t[id].access == Sha256(token)
    && t[id].accessExpires > at && t[id].revokedAt.None? && t[id].user in users
  }

  /** The row the rotating UPDATE finds: still this token's, and not revoked. */
  predicate MayRotate(t: Table, p: Selected) {
    p.id in t && t[p.id].refresh == Sha256(p.token) && t[p.id].revokedAt.None?
  }

  function Rotated(row: Session, next: Pair, at: int): Session {
    row.(access := Sha256(next.access), accessExpires := at + ACCESS_TTL_MS,
         refresh := Sha256(next.refresh), refreshExpires := at + REFRESH_TTL_MS)
  }

  function NewSession(user: UserId, next: Pair, at: int): Session {
    Session(user, Sha256(next.access), at + ACCESS_TTL_MS, Sha256(next.refresh), at + REFRESH_TTL_MS, None)
  }

  function RevokedRows(t: Table, token: Token, at: int): Table {
    map id | id in t ::
      if t[id].refresh == Sha256(token) && t[id].revokedAt.None?
      then t[id].(revokedAt := Some(at))
      else t[id]
  }

  ghost predicate NewPair(s: State, next: Pair) {
    next.access !in s.tokens && next.refresh !in s.tokens && next.access != next.refresh
  }

  /** New ids and tokens have not been used before, and a request is selected for once. */
  ghost predicate Enabled(s: State, step: Step) {
    match step
    case Issue(id, _, next, _) => id !in s.ids && NewPair(s, next)
    case RefreshSelect(req, _, _) => req !in s.selected
    case RefreshUpdate(req, next, _) => req in s.selected && NewPair(s, next)
    case _ => true
  }

  ghost function Apply(s: State, step: Step): State
    requires Enabled(s, step)
  {
    match step
    case AddUser(user) => s.(users := s.users + {user})
    case RemoveUser(user) => s.(users := s.users - {user}, sessions := Without(s.sessions, OwnedBy(user)))
    case Issue(id, user, next, at) =>
      if user !in s.users then s
      else s.(sessions := s.sessions[id := NewSession(user, next, at)], log := s.log + [Issued(id, user, next, at)],
              ids := s.ids + {id}, tokens := s.tokens + {next.access, next.refresh})
    case RefreshSelect(req, token, at) =>
      if id :| MayRefresh(s.sessions, s.users, id, token, at) then
        s.(selected := s.selected[req := Selected(id, token, at, s.sessions[id].refreshExpires)])
      else s
    case RefreshUpdate(req, next, at) =>
      var p := s.selected[req];
      var rest := s.selected - {req};
      if !MayRotate(s.sessions, p) then s.(selected := rest)
      else s.(sessions := s.sessions[p.id := Rotated(s.sessions[p.id], next, at)], selected := rest,
              log := s.log + [Redeemed(p.id, p.token, next, p.seenAt, p.expires, at)],
              tokens := s.tokens + {next.access, next.refresh})
    case Revoke(token, at) => s.(sessions := RevokedRows(s.sessions, token, at))
    case Purge(at) => s.(sessions := Without(s.sessions, Expired(at)))
    case ClearUser(user) => s.(sessions := Without(s.sessions, OwnedBy(user)))
    case ReadAccess(token, at) =>
      if id :| MayAccess(s.sessions, s.users, id, token, at) then s.(log := s.log + [Accessed(id, token)]) else s
  }

  ghost predicate Legal(steps: seq<Step>)
    decreases |steps|, 0
  {
    steps == [] || (Legal(Front(steps)) && Enabled(Run(Front(steps)), Last(steps)))
  }

  /** The state after an interleaving. */
  ghost function Run(steps: seq<Step>): State
    requires Legal(steps)
    decreases |steps|, 1
  {
    if steps == [] then Initial else Apply(Run(Front(steps)), Last(steps))
  }

  // ---------------------------------------------------------------------------------------
  // What every step keeps
  // ---------------------------------------------------------------------------------------

  ghost function GrantOf(e: Event): Grant
    requires !e.Accessed?
  {
    Grant(e.next.access, e.next.refresh, e.at)
  }

  /** The pairs a session was given, oldest first. */
  ghost function Chain(log: seq<Event>, id: SessionId): seq<Grant> {
    if log == [] then []
    else
      var before := Chain(Front(log), id);
      var e := Last(log);
      if !e.Accessed? && e.id == id then before + [GrantOf(e)] else before
  }

  /** Whom a session was issued to. */
  ghost function Owner(log: seq<Event>, id: SessionId): Option<UserId> {
    if log == [] then None
    else if Last(log).Issued? && Last(log).id == id then Some(Last(log).user)
    else Owner(Front(log), id)
  }

  ghost predicate Spent(log: seq<Event>, token: Token) {
    exists i :: 0 <= i < |log| && log[i].Redeemed? && log[i].spent == token
  }

  /** A redemption that uses up the newest token of its session, one that was unexpired when selected. */
  ghost predicate SpendsNewest(before: seq<Event>, e: Event)
    requires e.Redeemed?
  {
    var chain := Chain(before, e.id);
    && chain != [] && e.spent == Last(chain).refresh
    && e.expires == Last(chain).at + REFRESH_TTL_MS && e.seenAt < e.expires
  }

  ghost predicate ChainsLinear(log: seq<Event>) {
    forall i :: 0 <= i < |log| && log[i].Redeemed? ==> SpendsNewest(log[..i], log[i])
  }

  ghost predicate RedeemedOnce(log: seq<Event>) {
    forall i, j :: 0 <= i < j < |log| && log[i].Redeemed? && log[j].Redeemed? ==> log[i].spent != log[j].spent
  }

  ghost predicate RowCurrent(s: State, id: SessionId)
    requires id in s.sessions
  {
    var chain := Chain(s.log, id);
    && id in s.ids && chain != [] && s.sessions[id].user in s.users && Owner(s.log, id) == Some(s.sessions[id].user)
    && s.sessions[id].refresh == Sha256(Last(chain).refresh) && s.sessions[id].access == Sha256(Last(chain).access)
    && s.sessions[id].refreshExpires == Last(chain).at + REFRESH_TTL_MS
    && s.sessions[id].accessExpires == Last(chain).at + ACCESS_TTL_MS
    && !Spent(s.log, Last(chain).refresh)
  }

  ghost predicate RowsCurrent(s: State) {
    forall id :: id in s.sessions ==> RowCurrent(s, id)
  }

  ghost predicate Known(s: State, e: Event) {
    && (!e.Accessed? ==> e.next.refresh in s.tokens && e.next.access in s.tokens && e.id in s.ids)
    && (e.Redeemed? ==> e.spent in s.tokens)
  }

  /** No token serves two sessions. */
  ghost predicate TokensUnique(s: State) {
    && (forall a, b :: a in s.sessions && b in s.sessions && a != b ==>
          s.sessions[a].refresh != s.sessions[b].refresh && s.sessions[a].access != s.sessions[b].access)
    && (forall i :: 0 <= i < |s.log| ==> Known(s, s.log[i]))
  }

  /** A selected row, for as long as it holds the token, still expires when the SELECT saw it would. */
  ghost predicate SelectionSound(s: State, p: Selected) {
    && p.seenAt < p.expires && p.id in s.ids && p.token in s.tokens
    && (p.id in s.sessions && s.sessions[p.id].refresh == Sha256(p.token) ==>
          s.sessions[p.id].refreshExpires == p.expires)
  }

  ghost predicate SelectionsSound(s: State) {
    forall req :: req in s.selected ==> SelectionSound(s, s.selected[req])
  }

  ghost predicate Inv(s: State) {
    RowsCurrent(s) && TokensUnique(s) && SelectionsSound(s) && ChainsLinear(s.log) && RedeemedOnce(s.log)
  }

  lemma ChainKnown(s: State, log: seq<Event>, id: SessionId)
    requires forall i :: 0 <= i < |log| ==> Known(s, log[i])
    ensures forall i :: 0 <= i < |Chain(log, id)| ==>
              Chain(log, id)[i].refresh in s.tokens && Chain(log, id)[i].access in s.tokens
  {
    if log != [] {
      ChainKnown(s, Front(log), id);
    }
  }

  lemma ChainEmpty(log: seq<Event>, id: SessionId)
    requires forall i :: 0 <= i < |log| && !log[i].Accessed? ==> log[i].id != id
    ensures Chain(log, id) == []
  {
    if log != [] {
      ChainEmpty(Front(log), id);
    }
  }

  lemma LogGrows(log: seq<Event>, e: Event)
    ensures forall id :: Chain(log + [e], id) ==
              if !e.Accessed? && e.id == id then Chain(log, id) + [GrantOf(e)] else Chain(log, id)
    ensures forall id :: Owner(log + [e], id) ==
              if e.Issued? && e.id == id then Some(e.user) else Owner(log, id)
    ensures forall t :: Spent(log + [e], t) <==> Spent(log, t) || (e.Redeemed? && e.spent == t)
  {
    var longer := log + [e];
    assert Front(longer) == log && Last(longer) == e;
    forall t ensures Spent(longer, t) <==> Spent(log, t) || (e.Redeemed? && e.spent == t) {
      if Spent(log, t) {
        var i :| 0 <= i < |log| && log[i].Redeemed? && log[i].spent == t;
        assert longer[i].Redeemed? && longer[i].spent == t;
      }
      if e.Redeemed? && e.spent == t {
        assert longer[|log|].Redeemed? && longer[|log|].spent == t;
      }
    }
  }

  // ---------------------------------------------------------------------------------------
  // Every step keeps it
  // ---------------------------------------------------------------------------------------

  /** Rows may go and may be marked; their owner, hashes and expiries stay. */
  ghost predicate Shrinks(t: Table, t': Table) {
    forall id :: id in t' ==>
      && id in t && t'[id].user == t[id].user && t'[id].refresh == t[id].refresh && t'[id].access == t[id].access
      && t'[id].refreshExpires == t[id].refreshExpires && t'[id].accessExpires == t[id].accessExpires
  }

  lemma ShrinkingKeeps(s: State, s': State)
    requires Inv(s) && Shrinks(s.sessions, s'.sessions)
    requires forall id :: id in s'.sessions ==> s'.sessions[id].user in s'.users
    requires s' == s.(users := s'.users, sessions := s'.sessions)
    ensures Inv(s')
  {
    forall id | id in s'.sessions ensures RowCurrent(s', id) {
      assert RowCurrent(s, id);
    }
    forall req | req in s'.selected ensures SelectionSound(s', s'.selected[req]) {
      assert SelectionSound(s, s.selected[req]);
    }
    assert forall e :: Known(s, e) ==> Known(s', e);
  }

  lemma SelectKeeps(s: State, req: RequestId, p: Selected)
    requires Inv(s) && SelectionSound(s, p)
    ensures Inv(s.(selected := s.selected[req := p]))
  {
    var s' := s.(selected := s.selected[req := p]);
    forall id | id in s'.sessions ensures RowCurrent(s', id) {
      assert RowCurrent(s, id);
    }
    forall r | r in s'.selected ensures SelectionSound(s', s'.selected[r]) {
      if r != req {
        assert SelectionSound(s, s.selected[r]);
      }
    }
    assert forall e :: Known(s, e) ==> Known(s', e);
  }

  lemma LogKeepsHistory(log: seq<Event>, e: Event)
    requires ChainsLinear(log) && RedeemedOnce(log)
    requires e.Redeemed? ==> SpendsNewest(log, e) && !Spent(log, e.spent)
    ensures ChainsLinear(log + [e]) && RedeemedOnce(log + [e])
  {
    var longer := log + [e];
    forall i | 0 <= i < |longer| && longer[i].Redeemed? ensures SpendsNewest(longer[..i], longer[i]) {
      if i < |log| {
        assert longer[..i] == log[..i];
      } else {
        assert longer[..i] == log;
      }
    }
  }

  lemma AccessKeeps(s: State, id: SessionId, token: Token)
    requires Inv(s)
    ensures Inv(s.(log := s.log + [Accessed(id, token)]))
  {
    var s' := s.(log := s.log + [Accessed(id, token)]);
    LogGrows(s.log, Accessed(id, token));
    LogKeepsHistory(s.log, Accessed(id, token));
    forall other | other in s'.sessions ensures RowCurrent(s', other) {
      assert RowCurrent(s, other);
    }
    forall req | req in s'.selected ensures SelectionSound(s', s'.selected[req]) {
      assert SelectionSound(s, s.selected[req]);
    }
    assert forall e :: Known(s, e) ==> Known(s', e);
  }

  /** A new row and the pair it holds: what issuing and rotating have in common. */
  ghost predicate PairStored(s: State, s': State, id: SessionId, e: Event) {
    && !e.Accessed? && e.id == id && NewPair(s, e.next)
    && s'.users == s.users && s'.ids == s.ids + {id} && s'.log == s.log + [e]
    && s'.tokens == s.tokens + {e.next.access, e.next.refresh}
    && s'.sessions.Keys == s.sessions.Keys + {id}
    && (forall other :: other in s.sessions && other != id ==> s'.sessions[other] == s.sessions[other])
    && s'.sessions[id].user in s.users
    && s'.sessions[id].access == Sha256(e.next.access) && s'.sessions[id].refresh == Sha256(e.next.refresh)
    && s'.sessions[id].accessExpires == e.at + ACCESS_TTL_MS
    && s'.sessions[id].refreshExpires == e.at + REFRESH_TTL_MS
    && (e.Issued? ==> s'.sessions[id].user == e.user)
    && (e.Redeemed? ==>
          && id in s.sessions && s'.sessions[id].user == s.sessions[id].user && e.spent in s.tokens
          && forall other :: other in s.sessions && other != id ==> s.sessions[other].refresh != Sha256(e.spent))
  }

  lemma PairKeepsRows(s: State, s': State, id: SessionId, e: Event)
    requires Inv(s) && PairStored(s, s', id, e)
    ensures RowsCurrent(s')
  {
    LogGrows(s.log, e);
    RowsKnown(s);
    FreshUnspent(s, e.next.refresh);
    hide Chain, Spent, Owner;
    assert id in s.sessions ==> RowCurrent(s, id);
    forall other | other in s'.sessions ensures RowCurrent(s', other) {
      if other != id {
        assert RowCurrent(s, other);
      }
    }
  }

  lemma PairKeepsTokens(s: State, s': State, id: SessionId, e: Event)
    requires Inv(s) && PairStored(s, s', id, e)
    ensures TokensUnique(s')
  {
    RowsKnown(s);
    assert forall f :: Known(s, f) ==> Known(s', f);
    assert Known(s', e);
  }

  /** A pair just made cannot be one selected before. */
  lemma PairKeepsSelections(s: State, s': State, id: SessionId, e: Event)
    requires Inv(s) && PairStored(s, s', id, e)
    requires e.Issued? ==> id !in s.ids
    requires forall req :: req in s'.selected ==> req in s.selected && s'.selected[req] == s.selected[req]
    ensures SelectionsSound(s')
  {
    forall req | req in s'.selected ensures SelectionSound(s', s'.selected[req]) {
      assert SelectionSound(s, s.selected[req]);
    }
  }

  lemma IssueKeeps(s: State, id: SessionId, user: UserId, next: Pair, at: int)
    requires Inv(s) && Enabled(s, Issue(id, user, next, at)) && user in s.users
    ensures Inv(Apply(s, Issue(id, user, next, at)))
  {
    var s' := Apply(s, Issue(id, user, next, at));
    LogKeepsHistory(s.log, Issued(id, user, next, at));
    PairKeepsRows(s, s', id, Issued(id, user, next, at));
    PairKeepsTokens(s, s', id, Issued(id, user, next, at));
    PairKeepsSelections(s, s', id, Issued(id, user, next, at));
  }

  lemma FreshUnspent(s: State, token: Token)
    requires TokensUnique(s) && token !in s.tokens
    ensures !Spent(s.log, token)
  {
    forall i | 0 <= i < |s.log| && s.log[i].Redeemed? ensures s.log[i].spent != token {
      assert Known(s, s.log[i]);
    }
  }

  /** The hashes in the table are those of tokens issued before. */
  lemma RowsKnown(s: State)
    requires RowsCurrent(s) && TokensUnique(s)
    ensures forall id :: id in s.sessions ==>
              s.sessions[id].refresh.token in s.tokens && s.sessions[id].access.token in s.tokens
  {
    forall id | id in s.sessions
      ensures s.sessions[id].refresh.token in s.tokens && s.sessions[id].access.token in s.tokens
    {
      assert RowCurrent(s, id);
      ChainKnown(s, s.log, id);
    }
  }

  lemma RotateKeeps(s: State, req: RequestId, next: Pair, at: int)
    requires Inv(s) && Enabled(s, RefreshUpdate(req, next, at))
    requires MayRotate(s.sessions, s.selected[req])
    ensures Inv(Apply(s, RefreshUpdate(req, next, at)))
  {
    var p := s.selected[req];
    var e := Redeemed(p.id, p.token, next, p.seenAt, p.expires, at);
    var s' := Apply(s, RefreshUpdate(req, next, at));
    assert RowCurrent(s, p.id) && SelectionSound(s, p);
    RowsKnown(s);
    LogKeepsHistory(s.log, e);
    PairKeepsRows(s, s', p.id, e);
    PairKeepsTokens(s, s', p.id, e);
    PairKeepsSelections(s, s', p.id, e);
  }

  lemma SelectedSoundly(s: State, req: RequestId, token: Token, at: int)
    requires Inv(s) && Enabled(s, RefreshSelect(req, token, at)) && Apply(s, RefreshSelect(req, token, at)) != s
    ensures var s' := Apply(s, RefreshSelect(req, token, at));
            req in s'.selected && SelectionSound(s, s'.selected[req])
  {
    var s' := Apply(s, RefreshSelect(req, token, at));
    var p := s'.selected[req];
    assert MayRefresh(s.sessions, s.users, p.id, token, at);
    assert RowCurrent(s, p.id);
    RowsKnown(s);
  }

  lemma RemovalKeeps(s: State, step: Step)
    requires Inv(s)
    requires step.AddUser? || step.RemoveUser? || step.Revoke? || step.Purge? || step.ClearUser?
    ensures Inv(Apply(s, step))
  {
    forall id | id in s.sessions ensures s.sessions[id].user in s.users {
      assert RowCurrent(s, id);
    }
    ShrinkingKeeps(s, Apply(s, step));
    hide Inv;
  }

  lemma StepKeeps(s: State, step: Step)
    requires Inv(s) && Enabled(s, step)
    ensures Inv(Apply(s, step))
  {
    var s' := Apply(s, step);
    match step
    case Issue(id, user, next, at) =>
      if user in s.users {
        IssueKeeps(s, id, user, next, at);
      }
    case RefreshUpdate(req, next, at) =>
      if MayRotate(s.sessions, s.selected[req]) {
        RotateKeeps(s, req, next, at);
      } else {
        DeselectKeeps(s, s');
      }
    case RefreshSelect(req, token, at) =>
      if s' != s {
        SelectedSoundly(s, req, token, at);
        assert s'.selected == s.selected[req := s'.selected[req]];
        SelectKeeps(s, req, s'.selected[req]);
      }
    case ReadAccess(token, at) =>
      if s' != s {
        AccessKeeps(s, Last(s'.log).id, token);
      }
    case _ => RemovalKeeps(s, step);
  }

  lemma DeselectKeeps(s: State, s': State)
    requires Inv(s) && s' == s.(selected := s'.selected)
    requires forall req :: req in s'.selected ==> req in s.selected && s'.selected[req] == s.selected[req]
    ensures Inv(s')
  {
    forall id | id in s'.sessions ensures RowCurrent(s', id) {
      assert RowCurrent(s, id);
    }
    forall req | req in s'.selected ensures SelectionSound(s', s'.selected[req]) {
      assert SelectionSound(s, s.selected[req]);
    }
    assert forall e :: Known(s, e) ==> Known(s', e);
  }

  lemma {:induction false} RunKeeps(steps: seq<Step>)
    requires Legal(steps)
    ensures Inv(Run(steps))
  {
    if steps != [] {
      RunKeeps(Front(steps));
      StepKeeps(Run(Front(steps)), Last(steps));
    }
  }

  // ---------------------------------------------------------------------------------------
  // What holds of every interleaving
  // ---------------------------------------------------------------------------------------

  /** However the requests interleave, a refresh token is redeemed at most once. */
  lemma RefreshTokenRedeemedOnce(steps: seq<Step>, i: nat, j: nat)
    requires Legal(steps) && i < j < |Run(steps).log|
    requires Run(steps).log[i].Redeemed? && Run(steps).log[j].Redeemed?
    ensures Run(steps).log[i].spent != Run(steps).log[j].spent
  {
    RunKeeps(steps);
  }

  /**
   * Each redemption spent the newest token its session had then, and its request had selected it less
   * than 30 days after that token was made.
   */
  lemma RedemptionSpendsTheNewest(steps: seq<Step>, i: nat)
    requires Legal(steps) && i < |Run(steps).log| && Run(steps).log[i].Redeemed?
    ensures var log := Run(steps).log;
            var chain := Chain(log[..i], log[i].id);
            && chain != [] && log[i].spent == Last(chain).refresh
            && log[i].seenAt < Last(chain).at + 30 * 24 * 3600 * 1000
  {
    RunKeeps(steps);
  }

  /** Every token of a session but its newest has been redeemed. */
  lemma {:induction false} OlderTokensSpent(steps: seq<Step>, id: SessionId, i: nat)
    requires Legal(steps) && i + 1 < |Chain(Run(steps).log, id)|
    ensures Spent(Run(steps).log, Chain(Run(steps).log, id)[i].refresh)
  {
    var s, step := Run(Front(steps)), Last(steps);
    var s' := Apply(s, step);
    RunKeeps(Front(steps));
    if s'.log == s.log {
      OlderTokensSpent(Front(steps), id, i);
    } else {
      var e := Last(s'.log);
      assert s'.log == s.log + [e];
      LogGrows(s.log, e);
      if i + 1 < |Chain(s.log, id)| {
        OlderTokensSpent(Front(steps), id, i);
      } else {
        NewestReplaced(s, step, id);
      }
    }
  }

  /** A chain that is not empty grows only by a redemption of its newest token. */
  lemma NewestReplaced(s: State, step: Step, id: SessionId)
    requires Inv(s) && Enabled(s, step) && |Apply(s, step).log| == |s.log| + 1
    requires Chain(s.log, id) != [] && !Last(Apply(s, step).log).Accessed? && Last(Apply(s, step).log).id == id
    ensures var e := Last(Apply(s, step).log);
            e.Redeemed? && e.spent == Last(Chain(s.log, id)).refresh
  {
    if step.Issue? {
      forall i | 0 <= i < |s.log| ensures !s.log[i].Accessed? ==> s.log[i].id != id {
        assert Known(s, s.log[i]);
      }
      ChainEmpty(s.log, id);
    } else {
      assert RowCurrent(s, id);
    }
  }

  ghost predicate Live(s: State, id: SessionId) {
    id in s.sessions && s.sessions[id].revokedAt.None?
  }

  /**
   * Only the newest pair of a live session is honoured: its refresh token for 30 days and its access
   * token for an hour after the pair was made.
   */
  lemma OnlyTheNewestPasses(steps: seq<Step>, id: SessionId, token: Token, at: int)
    requires Legal(steps)
    ensures var s := Run(steps);
            MayRefresh(s.sessions, s.users, id, token, at) <==>
            Live(s, id) && Chain(s.log, id) != []
            && token == Last(Chain(s.log, id)).refresh && at < Last(Chain(s.log, id)).at + 30 * 24 * 3600 * 1000
    ensures var s := Run(steps);
            MayAccess(s.sessions, s.users, id, token, at) <==>
            Live(s, id) && Chain(s.log, id) != []
            && token == Last(Chain(s.log, id)).access && at < Last(Chain(s.log, id)).at + 3600 * 1000
  {
    RunKeeps(steps);
    var s := Run(steps);
    if id in s.sessions {
      assert RowCurrent(s, id);
    }
  }

  /**
   * A refresh token that has been redeemed is refused everywhere. Revoking with it does nothing
   * either: the session it belonged to goes on.
   */
  lemma SpentTokenIsInert(steps: seq<Step>, token: Token)
    requires Legal(steps) && Spent(Run(steps).log, token)
    ensures var s := Run(steps);
            forall id, at :: !MayRefresh(s.sessions, s.users, id, token, at)
    ensures var s := Run(steps);
            forall p: Selected :: p.token == token ==> !MayRotate(s.sessions, p)
    ensures forall at :: Apply(Run(steps), Revoke(token, at)) == Run(steps)
  {
    RunKeeps(steps);
    var s := Run(steps);
    forall id | id in s.sessions ensures s.sessions[id].refresh != Sha256(token) {
      assert RowCurrent(s, id);
    }
    forall at ensures Apply(s, Revoke(token, at)) == s {
      assert RevokedRows(s.sessions, token, at) == s.sessions;
    }
  }

  /** A session that was issued and is now revoked or gone. */
  ghost predicate Dead(s: State, id: SessionId) {
    id in s.ids && !Live(s, id)
  }

  lemma DeadStaysDead(s: State, step: Step, id: SessionId)
    requires Enabled(s, step) && Dead(s, id)
    ensures var s' := Apply(s, step);
            && Dead(s', id) && s.log <= s'.log
            && forall i :: |s.log| <= i < |s'.log| ==> s'.log[i].id != id
  {
  }

  /** Once revoked or deleted, a session passes no refresh and no access check ever again. */
  lemma {:induction false} DeadForever(steps: seq<Step>, more: seq<Step>, id: SessionId)
    requires Legal(steps) && Legal(steps + more) && Dead(Run(steps), id)
    ensures Dead(Run(steps + more), id) && Run(steps).log <= Run(steps + more).log
    ensures forall i :: |Run(steps).log| <= i < |Run(steps + more).log| ==> Run(steps + more).log[i].id != id
    decreases |more|
  {
    if more == [] {
      assert steps + more == steps;
    } else {
      assert Front(steps + more) == steps + Front(more) && Last(steps + more) == Last(more);
      DeadForever(steps, Front(more), id);
      DeadStaysDead(Run(steps + Front(more)), Last(more), id);
    }
  }

  /**
   * What ends a session: revoking with its newest token, purging when that token has expired, and clearing
   * or removing its owner.
   */
  ghost predicate Ends(s: State, step: Step, id: SessionId) {
    var chain := Chain(s.log, id);
    match step
    case Revoke(token, _) => chain != [] && token == Last(chain).refresh
    case Purge(at) => chain != [] && Last(chain).at + 30 * 24 * 3600 * 1000 < at
    case ClearUser(user) => Owner(s.log, id) == Some(user)
    case RemoveUser(user) => Owner(s.log, id) == Some(user)
    case _ => false
  }

  /** A live session is dead after a statement exactly when that is what ends it. */
  lemma DiesIffEnded(steps: seq<Step>, step: Step, id: SessionId)
    requires Legal(steps) && Live(Run(steps), id) && Enabled(Run(steps), step)
    ensures Dead(Apply(Run(steps), step), id) <==> Ends(Run(steps), step, id)
    ensures Live(Apply(Run(steps), step), id) <==> !Ends(Run(steps), step, id)
  {
    RunKeeps(steps);
    assert RowCurrent(Run(steps), id);
  }

  /** A row goes exactly when its session is ended by a purge or with its user, or was revoked before a purge. */
  lemma RowGoesIff(steps: seq<Step>, step: Step, id: SessionId)
    requires Legal(steps) && id in Run(steps).sessions && Enabled(Run(steps), step)
    ensures id !in Apply(Run(steps), step).sessions <==>
            || (!step.Revoke? && Ends(Run(steps), step, id))
            || (step.Purge? && !Live(Run(steps), id))
  {
    RunKeeps(steps);
    assert RowCurrent(Run(steps), id);
  }

  // ---------------------------------------------------------------------------------------
  // Late redemptions
  // ---------------------------------------------------------------------------------------

  /** The test that the rotating UPDATE leaves out: the row it would change has not expired. */
  ghost predicate RowUnexpired(s: State, step: Step) {
    step.RefreshUpdate? && step.req in s.selected && MayRotate(s.sessions, s.selected[step.req]) ==>
      step.at < s.sessions[s.selected[step.req].id].refreshExpires
  }

  /** A redemption in time: less than 30 days after the spent token was made. */
  ghost predicate InTime(before: seq<Event>, e: Event)
    requires e.Redeemed?
  {
    var chain := Chain(before, e.id);
    chain != [] && e.at < Last(chain).at + 30 * 24 * 3600 * 1000
  }

  /**
   * The UPDATE does not look at the expiry again. So what it redeems was selected in time, and is
   * redeemed in time exactly when the row had not expired at the UPDATE either.
   */
  lemma RedeemedInTimeIff(steps: seq<Step>, req: RequestId, next: Pair, at: int)
    requires Legal(steps) && Enabled(Run(steps), RefreshUpdate(req, next, at))
    requires MayRotate(Run(steps).sessions, Run(steps).selected[req])
    ensures var s, s' := Run(steps), Apply(Run(steps), RefreshUpdate(req, next, at));
            var e, chain := Last(s'.log), Chain(s.log, s.selected[req].id);
            && s'.log == s.log + [e] && e.Redeemed? && e.id == s.selected[req].id && e.at == at
            && chain != [] && e.expires == Last(chain).at + REFRESH_TTL_MS
            && e.seenAt < Last(chain).at + REFRESH_TTL_MS
            && (e.at >= e.expires <==> at >= Last(chain).at + REFRESH_TTL_MS)
            && (InTime(s.log, e) <==> RowUnexpired(s, RefreshUpdate(req, next, at)))
  {
    RunKeeps(steps);
    var s := Run(steps);
    assert RowCurrent(s, s.selected[req].id) && SelectionSound(s, s.selected[req]);
  }

  ghost predicate AllInTime(log: seq<Event>) {
    forall i :: 0 <= i < |log| && log[i].Redeemed? ==> InTime(log[..i], log[i])
  }

  ghost predicate RowsUnexpired(steps: seq<Step>)
    requires Legal(steps)
  {
    steps == [] || (RowsUnexpired(Front(steps)) && RowUnexpired(Run(Front(steps)), Last(steps)))
  }

  /** A step logs one event at most, and a redemption among them is in time exactly when the row had not expired. */
  lemma StepInTimeIff(steps: seq<Step>, step: Step)
    requires Legal(steps) && Enabled(Run(steps), step)
    ensures var s, log' := Run(steps), Apply(Run(steps), step).log;
            || (log' == s.log && RowUnexpired(s, step))
            || (log' != [] && log' == s.log + [Last(log')]
                && if Last(log').Redeemed? then InTime(s.log, Last(log')) <==> RowUnexpired(s, step)
                   else RowUnexpired(s, step))
  {
    hide InTime, Chain, Inv;
    var s := Run(steps);
    if step.RefreshUpdate? && MayRotate(s.sessions, s.selected[step.req]) {
      RedeemedInTimeIff(steps, step.req, step.next, step.at);
    }
  }

  /** A whole run redeems nothing late exactly when no UPDATE of it meets a row already expired. */
  lemma {:induction false} AllInTimeIff(steps: seq<Step>)
    requires Legal(steps)
    ensures AllInTime(Run(steps).log) <==> RowsUnexpired(steps)
  {
    hide Apply, Enabled, RowUnexpired, InTime, AllInTime;
    if steps == [] {
      AllInTimeOfNone();
    } else {
      var log, log' := Run(Front(steps)).log, Run(steps).log;
      AllInTimeIff(Front(steps));
      StepInTimeIff(Front(steps), Last(steps));
      if log' != log {
        AllInTimeGrows(log, Last(log'));
      }
    }
  }

  lemma AllInTimeOfNone()
    ensures AllInTime([])
  {
  }

  lemma AllInTimeGrows(log: seq<Event>, e: Event)
    ensures AllInTime(log + [e]) <==> AllInTime(log) && (e.Redeemed? ==> InTime(log, e))
  {
    var longer := log + [e];
    assert longer[..|log|] == log && longer[|log|] == e;
    forall i | 0 <= i < |log| ensures longer[..i] == log[..i] && longer[i] == log[i] {
    }
  }

  /** Such an UPDATE is possible: a run in which a token is redeemed after it has expired. */
  lemma RedeemedAfterExpiry()
    ensures exists steps: seq<Step> :: Legal(steps) && !AllInTime(Run(steps).log)
  {
    var a, b := Pair(1, 2), Pair(3, 4);
    var s0: seq<Step> := [];
    var s1 := [AddUser(7)];
    var s2 := s1 + [Issue(5, 7, a, 0)];
    var s3 := s2 + [RefreshSelect(9, 2, 1)];
    var s4 := s3 + [RefreshUpdate(9, b, REFRESH_TTL_MS + 1)];
    assert Front(s1) == s0 && Run(s0) == Initial;
    assert Front(s2) == s1 && Last(s2) == Issue(5, 7, a, 0) && Legal(s1);
    assert Run(s2).sessions == map[5 := NewSession(7, a, 0)] && Run(s2).log == [Issued(5, 7, a, 0)];
    assert MayRefresh(Run(s2).sessions, Run(s2).users, 5, 2, 1);
    assert Front(s3) == s2 && Last(s3) == RefreshSelect(9, 2, 1) && Legal(s2);
    assert Run(s3).selected[9] == Selected(5, 2, 1, REFRESH_TTL_MS);
    assert Front(s4) == s3 && Last(s4) == RefreshUpdate(9, b, REFRESH_TTL_MS + 1) && Legal(s3);
    assert !RowUnexpired(Run(s3), Last(s4));
    AllInTimeIff(s4);
  }

  // ---------------------------------------------------------------------------------------
  // The statements as the worker sends them
  // ---------------------------------------------------------------------------------------

  class DesktopSessionTable {
    var rows: Table
    var users: set<UserId>
    var selected: map<RequestId, Selected>
    ghost var steps: seq<Step>

    /** The tables hold what the interleaving so far has made of them. */
    ghost predicate Valid()
      reads this
    {
      Legal(steps) && rows == Run(steps).sessions && users == Run(steps).users && selected == Run(steps).selected
    }

    constructor ()
      ensures Valid() && steps == []
    {
      rows, users, selected, steps := map[], {}, map[], [];
    }

    /** Appending a legal step runs it. */
    twostate lemma Took(step: Step)
      requires old(Valid()) && Enabled(Run(old(steps)), step) && steps == old(steps) + [step]
      ensures Legal(steps) && Run(steps) == Apply(Run(old(steps)), step)
    {
      assert Front(steps) == old(steps);
    }

    method AddUser(user: UserId)
      requires Valid()
      modifies this
      ensures Valid() && steps == old(steps) + [Step.AddUser(user)] && users == old(users) + {user}
    {
      users := users + {user};
      steps := steps + [Step.AddUser(user)];
      Took(Step.AddUser(user));
    }

    method RemoveUser(user: UserId)
      requires Valid()
      modifies this
      ensures Valid() && steps == old(steps) + [Step.RemoveUser(user)]
      ensures users == old(users) - {user}
    {
      users := users - {user};
      rows := Without(rows, OwnedBy(user));
      steps := steps + [Step.RemoveUser(user)];
      Took(Step.RemoveUser(user));
    }

    /** The foreign key refuses a session for a user who is gone. */
    method IssueDesktopTokenPair(id: SessionId, user: UserId, next: Pair, at: int) returns (inserted: bool)
      requires Valid() && Enabled(Run(steps), Issue(id, user, next, at))
      modifies this
      ensures Valid() && steps == old(steps) + [Issue(id, user, next, at)]
      ensures inserted <==> user in old(users)
      ensures inserted ==> MayRefresh(rows, users, id, next.refresh, at) && MayAccess(rows, users, id, next.access, at)
    {
      inserted := user in users;
      if inserted {
        rows := rows[id := NewSession(user, next, at)];
      }
      steps := steps + [Issue(id, user, next, at)];
      Took(Issue(id, user, next, at));
    }

    /** The first half of a refresh. LIMIT 1 picks some matching row; there is never more than one. */
    method SelectForRefresh(req: RequestId, token: Token, at: int) returns (found: bool)
      requires Valid() && req !in selected
      modifies this
      ensures Valid() && steps == old(steps) + [RefreshSelect(req, token, at)]
      ensures found <==> exists id :: MayRefresh(old(rows), old(users), id, token, at)
      ensures found <==> req in selected
    {
      RunKeeps(steps);
      found := false;
      if id :| id in rows && MayRefresh(rows, users, id, token, at) {
        selected := selected[req := Selected(id, token, at, rows[id].refreshExpires)];
        found := true;
      }
      steps := steps + [RefreshSelect(req, token, at)];
      Took(RefreshSelect(req, token, at));
    }

    /** The second half: whether it succeeds depends on the rows as they are now. */
    method UpdateForRefresh(req: RequestId, next: Pair, at: int) returns (changed: bool)
      requires Valid() && Enabled(Run(steps), RefreshUpdate(req, next, at))
      modifies this
      ensures Valid() && steps == old(steps) + [RefreshUpdate(req, next, at)]
      ensures changed <==> MayRotate(old(rows), old(selected)[req])
      ensures req !in selected
      ensures changed ==> !exists id :: MayRefresh(rows, users, id, old(selected)[req].token, at)
    {
      RunKeeps(steps);
      var p := selected[req];
      changed := MayRotate(rows, p);
      if changed {
        rows := rows[p.id := Rotated(rows[p.id], next, at)];
      }
      selected := selected - {req};
      steps := steps + [RefreshUpdate(req, next, at)];
      Took(RefreshUpdate(req, next, at));
      if changed {
        LogGrows(Run(old(steps)).log, Redeemed(p.id, p.token, next, p.seenAt, p.expires, at));
        SpentTokenIsInert(steps, p.token);
      }
    }

    method RevokeDesktopRefreshToken(token: Token, at: int)
      requires Valid()
      modifies this
      ensures Valid() && steps == old(steps) + [Revoke(token, at)]
    {
      rows := RevokedRows(rows, token, at);
      steps := steps + [Revoke(token, at)];
      Took(Revoke(token, at));
    }

    method PurgeExpiredDesktopSessions(at: int)
      requires Valid()
      modifies this
      ensures Valid() && steps == old(steps) + [Purge(at)]
    {
      rows := Without(rows, Expired(at));
      steps := steps + [Purge(at)];
      Took(Purge(at));
    }

    method ClearAppUserSessions(user: UserId)
      requires Valid()
      modifies this
      ensures Valid() && steps == old(steps) + [ClearUser(user)]
    {
      rows := Without(rows, OwnedBy(user));
      steps := steps + [ClearUser(user)];
      Took(ClearUser(user));
    }

    method ReadDesktopAccessTokenUser(token: Token, at: int) returns (user: Option<UserId>)
      requires Valid()
      modifies this`steps
      ensures Valid() && steps == old(steps) + [ReadAccess(token, at)]
      ensures user.Some? <==> exists id :: MayAccess(rows, users, id, token, at)
      ensures user.Some? ==> exists id :: MayAccess(rows, users, id, token, at) && user.value == rows[id].user
      ensures user.None? ==> Run(steps).log == Run(old(steps)).log
      ensures user.Some? ==>
                var log := Run(steps).log;
                && log != [] && log == Run(old(steps)).log + [Last(log)]
                && Last(log).Accessed? && Last(log).access == token
    {
      RunKeeps(steps);
      user := None;
      if id :| id in rows && MayAccess(rows, users, id, token, at) {
        user := Some(rows[id].user);
      }
      steps := steps + [ReadAccess(token, at)];
      Took(ReadAccess(token, at));
    }
  }
}
