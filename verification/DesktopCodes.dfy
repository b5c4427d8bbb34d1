/**
 * Desktop authorization codes: any number of token exchanges, purges and account removals
 * interleave between the statements of one exchange (RFC 6749 section 4.1.2, RFC 7636 section 4.6).
 */
module DesktopCodes {
  import opened Sequences
  import opened Wrappers

  type Code = nat
  type UserId = nat
  type RequestId = nat
  type Verifier = nat

  /** The challenge a client registered: the hash of a verifier, or some text that is not one. */
  datatype Challenge = HashOf(verifier: Verifier) | Unhashed(text: nat)

  const CODE_TTL_MS := 300 * 1000

  datatype CodeRow = CodeRow(
    user: UserId,
    clientId: string,
    redirectUri: string,
    challenge: Challenge,
    challengeMethod: string,
    createdAt: int,
    expiresAt: int,
    usedAt: Option<int>)

  /** What the SELECT returns: the row as it was, and whether the join found its user. */
  datatype Record = Record(row: CodeRow, userFound: bool)

  datatype Exchange = Exchange(code: Code, clientId: string, redirectUri: string, verifier: Verifier)

  datatype Refusal =
    | Unknown | AlreadyUsed | Expired | WrongClient | WrongRedirect | UnsupportedMethod | WrongVerifier | UserGone

  /** How far an exchange has come. `seenAt` is the clock reading its expiry check used. */
  datatype Stage =
    | Loaded(x: Exchange, record: Option<Record>)
    | Approved(x: Exchange, user: UserId, seenAt: int)
    | Claimed(x: Exchange, user: UserId, seenAt: int)

  datatype Pair = Pair(x: Exchange, user: UserId, seenAt: int)

  /**
   * The tables and the exchanges in flight; below them the codes ever inserted, when codes were
   * claimed, and the pairs issued.
   */
  datatype State = State(
    codes: map<Code, CodeRow>,
    users: set<UserId>,
    flights: map<RequestId, Stage>,
    grants: map<Code, CodeRow>,
    claimed: map<Code, int>,
    pairs: seq<Pair>)

  datatype Step =
    | AddUser(user: UserId)
    | RemoveUser(user: UserId)
    | Insert(code: Code, user: UserId, clientId: string, redirectUri: string,
             challenge: Challenge, challengeMethod: string, at: int)
    | Purge(at: int)
    | Load(req: RequestId, x: Exchange)
    | Check(req: RequestId, at: int)
    | Claim(req: RequestId, at: int)
    | IssuePair(req: RequestId)
    | Abandon(req: RequestId)

  const Initial := State(map[], {}, map[], map[], map[], [])

  // ---------------------------------------------------------------------------------------
  // The statements
  // ---------------------------------------------------------------------------------------

  function Without(codes: map<Code, CodeRow>, gone: CodeRow -> bool): map<Code, CodeRow> {
    map code | code in codes && !gone(codes[code]) :: codes[code]
  }

  function ExpiredBefore(at: int): CodeRow -> bool {
    (row: CodeRow) => row.expiresAt < at
  }

  function OwnedBy(user: UserId): CodeRow -> bool {
    (row: CodeRow) => row.user == user
  }

  function NewCode(step: Step): CodeRow
    requires step.Insert?
  {
    CodeRow(step.user, step.clientId, step.redirectUri, step.challenge, step.challengeMethod,
            step.at, step.at + CODE_TTL_MS, None)
  }

  function Found(codes: map<Code, CodeRow>, users: set<UserId>, code: Code): Option<Record> {
    if code in codes then Some(Record(codes[code], codes[code].user in users)) else None
  }

  /** The checks between SELECT and UPDATE, in their order; None lets the exchange go on. */
  function Refused(record: Option<Record>, x: Exchange, at: int): Option<Refusal> {
    if record.None? then Some(Unknown)
    else
      var row := record.value.row;
      if row.usedAt.Some? then Some(AlreadyUsed)
      else if row.expiresAt <= at then Some(Expired)
      else if row.clientId != x.clientId then Some(WrongClient)
      else if row.redirectUri != x.redirectUri then Some(WrongRedirect)
      else if row.challengeMethod != "S256" then Some(UnsupportedMethod)
      else if HashOf(x.verifier) != row.challenge then Some(WrongVerifier)
      else if !record.value.userFound then Some(UserGone)
      else None
  }

  predicate Claimable(codes: map<Code, CodeRow>, code: Code) {
    code in codes && codes[code].usedAt.None?
  }

  ghost predicate Enabled(s: State, step: Step) {
    match step
    case Insert(code, _, _, _, _, _, _) => code !in s.grants
    case Load(req, _) => req !in s.flights
    case Check(req, _) => req in s.flights && s.flights[req].Loaded?
    case Claim(req, _) => req in s.flights && s.flights[req].Approved?
    case IssuePair(req) => req in s.flights && s.flights[req].Claimed?
    case _ => true
  }

  ghost function Apply(s: State, step: Step): State
    requires Enabled(s, step)
  {
    match step
    case AddUser(user) => s.(users := s.users + {user})
    case RemoveUser(user) => s.(users := s.users - {user}, codes := Without(s.codes, OwnedBy(user)))
    case Insert(code, user, _, _, _, _, _) =>
      if user !in s.users then s
      else s.(codes := s.codes[code := NewCode(step)], grants := s.grants[code := NewCode(step)])
    case Purge(at) => s.(codes := Without(s.codes, ExpiredBefore(at)))
    case Load(req, x) => s.(flights := s.flights[req := Loaded(x, Found(s.codes, s.users, x.code))])
    case Check(req, at) =>
      var f := s.flights[req];
      if Refused(f.record, f.x, at).Some? then s.(flights := s.flights - {req})
      else s.(flights := s.flights[req := Approved(f.x, f.record.value.row.user, at)])
    case Claim(req, at) =>
      var f := s.flights[req];
      if !Claimable(s.codes, f.x.code) then s.(flights := s.flights - {req})
      else s.(codes := s.codes[f.x.code := s.codes[f.x.code].(usedAt := Some(at))],
              flights := s.flights[req := Claimed(f.x, f.user, f.seenAt)], claimed := s.claimed[f.x.code := at])
    case IssuePair(req) =>
      var f := s.flights[req];
      s.(flights := s.flights - {req},
         pairs := if f.user in s.users then s.pairs + [Pair(f.x, f.user, f.seenAt)] else s.pairs)
    case Abandon(req) => s.(flights := s.flights - {req})
  }

  ghost predicate Legal(steps: seq<Step>)
    decreases |steps|, 0
  {
    steps == [] || (Legal(Front(steps)) && Enabled(Run(Front(steps)), Last(steps)))
  }

  /** The state after an interleaving. */
  ghost function Run(steps: seq<Step>): State
    requires Legal(steps)
    decreases |steps|, 1
  {
    if steps == [] then Initial else Apply(Run(Front(steps)), Last(steps))
  }

  // ---------------------------------------------------------------------------------------
  // What every step keeps
  // ---------------------------------------------------------------------------------------

  /** The exchange is the one the grant was made for, and the code had not expired when it looked. */
  ghost predicate Entitled(s: State, x: Exchange, user: UserId, seenAt: int) {
    x.code in s.grants
    && var grant := s.grants[x.code];
    && x.clientId == grant.clientId && x.redirectUri == grant.redirectUri
    && grant.challengeMethod == "S256" && grant.challenge == HashOf(x.verifier)
    && user == grant.user && seenAt < grant.expiresAt
  }

  ghost predicate IsGrant(s: State, code: Code, row: CodeRow) {
    code in s.grants && row == s.grants[code].(usedAt := row.usedAt)
  }

  ghost predicate FlightSound(s: State, f: Stage) {
    match f
    case Loaded(x, record) => record.Some? ==> IsGrant(s, x.code, record.value.row)
    case Approved(x, user, seenAt) => Entitled(s, x, user, seenAt)
    case Claimed(x, user, seenAt) => Entitled(s, x, user, seenAt) && x.code in s.claimed
  }

  ghost predicate Claims(s: State, req: RequestId, code: Code) {
    req in s.flights && s.flights[req].Claimed? && s.flights[req].x.code == code
  }

  /** A claimed code is spent on one exchange, which has its pair or is still waiting for it. */
  ghost predicate ClaimedOnce(s: State) {
    && (forall code :: Claimable(s.codes, code) ==> code !in s.claimed)
    && (forall a, b, code :: Claims(s, a, code) && Claims(s, b, code) ==> a == b)
    && (forall i, req :: 0 <= i < |s.pairs| ==> !Claims(s, req, s.pairs[i].x.code))
    && (forall i, j :: 0 <= i < j < |s.pairs| ==> s.pairs[i].x.code != s.pairs[j].x.code)
  }

  ghost predicate RowsGranted(s: State) {
    && (forall code :: code in s.codes ==> IsGrant(s, code, s.codes[code]) && s.codes[code].user in s.users)
    && (forall code :: code in s.grants ==> s.grants[code].expiresAt == s.grants[code].createdAt + CODE_TTL_MS)
    && s.claimed.Keys <= s.grants.Keys
  }

  ghost predicate FlightsSound(s: State) {
    forall req :: req in s.flights ==> FlightSound(s, s.flights[req])
  }

  ghost predicate PairSound(s: State, p: Pair) {
    Entitled(s, p.x, p.user, p.seenAt) && p.x.code in s.claimed
  }

  ghost predicate PairsSound(s: State) {
    forall i :: 0 <= i < |s.pairs| ==> PairSound(s, s.pairs[i])
  }

  ghost predicate Inv(s: State) {
    RowsGranted(s) && FlightsSound(s) && PairsSound(s) && ClaimedOnce(s)
  }

  /** Grants are never changed, and codes are never unclaimed. */
  lemma GrantsStay(s: State, step: Step)
    requires Enabled(s, step)
    ensures var s' := Apply(s, step);
            && (forall code :: code in s.grants ==> code in s'.grants && s'.grants[code] == s.grants[code])
            && s.claimed.Keys <= s'.claimed.Keys
  {
  }

  lemma StepKeepsRows(s: State, step: Step)
    requires RowsGranted(s) && FlightsSound(s) && Enabled(s, step)
    ensures RowsGranted(Apply(s, step))
  {
    GrantsStay(s, step);
    if step.Claim? {
      assert FlightSound(s, s.flights[step.req]);
    }
  }

  lemma FlightStays(s: State, step: Step, f: Stage)
    requires Enabled(s, step) && FlightSound(s, f)
    ensures FlightSound(Apply(s, step), f)
  {
    hide Apply;
    GrantsStay(s, step);
  }

  /** The flights after a step are those before it, but for the one the step belongs to. */
  lemma OtherFlights(s: State, step: Step, req: RequestId)
    requires Enabled(s, step) && req in Apply(s, step).flights
    requires req !in s.flights || Apply(s, step).flights[req] != s.flights[req]
    ensures (step.Load? || step.Check? || step.Claim?) && step.req == req
  {
  }

  lemma OwnFlight(s: State, step: Step)
    requires RowsGranted(s) && FlightsSound(s) && Enabled(s, step) && (step.Load? || step.Check? || step.Claim?)
    requires step.req in Apply(s, step).flights
    ensures FlightSound(Apply(s, step), Apply(s, step).flights[step.req])
  {
    if !step.Load? {
      assert FlightSound(s, s.flights[step.req]);
    }
  }

  lemma StepKeepsFlights(s: State, step: Step)
    requires RowsGranted(s) && FlightsSound(s) && Enabled(s, step)
    ensures FlightsSound(Apply(s, step))
  {
    hide Apply, FlightSound;
    var s' := Apply(s, step);
    forall req | req in s'.flights ensures FlightSound(s', s'.flights[req]) {
      if req in s.flights && s'.flights[req] == s.flights[req] {
        FlightStays(s, step, s.flights[req]);
      } else {
        OtherFlights(s, step, req);
        OwnFlight(s, step);
      }
    }
  }

  lemma StepKeepsPairs(s: State, step: Step)
    requires FlightsSound(s) && PairsSound(s) && Enabled(s, step)
    ensures PairsSound(Apply(s, step))
  {
    var s' := Apply(s, step);
    GrantsStay(s, step);
    forall i | 0 <= i < |s'.pairs| ensures PairSound(s', s'.pairs[i]) {
      if i < |s.pairs| {
        assert PairSound(s, s.pairs[i]);
      } else {
        assert FlightSound(s, s.flights[step.req]);
      }
    }
  }

  lemma ClaimKeepsClaims(s: State, step: Step)
    requires Inv(s) && Enabled(s, step) && step.Claim?
    ensures ClaimedOnce(Apply(s, step))
  {
    hide PairsSound, RowsGranted;
    var s', code := Apply(s, step), s.flights[step.req].x.code;
    forall other, c | Claims(s', other, c) && other != step.req ensures Claims(s, other, c) {}
    forall other | Claims(s, other, code) ensures code in s.claimed {
      assert FlightSound(s, s.flights[other]);
    }
    assert PairsClaimed(s) by {
      PairsAreClaimed(s);
    }
  }

  ghost predicate PairsClaimed(s: State) {
    forall i :: 0 <= i < |s.pairs| ==> s.pairs[i].x.code in s.claimed
  }

  lemma PairsAreClaimed(s: State)
    requires PairsSound(s)
    ensures PairsClaimed(s)
  {
    forall i | 0 <= i < |s.pairs| ensures s.pairs[i].x.code in s.claimed {
      assert PairSound(s, s.pairs[i]);
    }
  }

  lemma IssueKeepsClaims(s: State, step: Step)
    requires ClaimedOnce(s) && Enabled(s, step) && step.IssuePair?
    ensures ClaimedOnce(Apply(s, step))
  {
    var s' := Apply(s, step);
    assert Claims(s, step.req, s.flights[step.req].x.code);
    forall req, code | Claims(s', req, code) ensures Claims(s, req, code) && req != step.req {}
  }

  lemma OthersKeepClaims(s: State, step: Step)
    requires ClaimedOnce(s) && RowsGranted(s) && Enabled(s, step) && !step.Claim? && !step.IssuePair?
    ensures ClaimedOnce(Apply(s, step))
  {
    var s' := Apply(s, step);
    assert s'.pairs == s.pairs && s'.claimed == s.claimed;
    forall req, code | Claims(s', req, code) ensures Claims(s, req, code) {}
    forall code | Claimable(s'.codes, code) ensures code !in s.claimed {
      assert Claimable(s.codes, code) || code !in s.grants;
    }
    hide Apply;
  }

  lemma StepKeepsClaims(s: State, step: Step)
    requires Inv(s) && Enabled(s, step)
    ensures ClaimedOnce(Apply(s, step))
  {
    if step.Claim? {
      ClaimKeepsClaims(s, step);
    } else if step.IssuePair? {
      IssueKeepsClaims(s, step);
    } else {
      OthersKeepClaims(s, step);
    }
    hide ClaimedOnce, Apply;
  }

  lemma {:induction false} RunKeeps(steps: seq<Step>)
    requires Legal(steps)
    ensures Inv(Run(steps))
  {
    if steps != [] {
      RunKeeps(Front(steps));
      StepKeepsRows(Run(Front(steps)), Last(steps));
      StepKeepsFlights(Run(Front(steps)), Last(steps));
      StepKeepsPairs(Run(Front(steps)), Last(steps));
      StepKeepsClaims(Run(Front(steps)), Last(steps));
    }
  }

  // ---------------------------------------------------------------------------------------
  // What holds of every interleaving
  // ---------------------------------------------------------------------------------------

  /** At most one pair is ever issued for a code. */
  lemma OnePairPerCode(steps: seq<Step>, i: nat, j: nat)
    requires Legal(steps) && i < j < |Run(steps).pairs|
    ensures Run(steps).pairs[i].x.code != Run(steps).pairs[j].x.code
  {
    RunKeeps(steps);
  }

  ghost predicate InsertedBy(steps: seq<Step>, k: nat, code: Code, row: CodeRow) {
    k < |steps| && steps[k].Insert? && steps[k].code == code && row == NewCode(steps[k])
  }

  lemma {:induction false} GrantsWereInserted(steps: seq<Step>, code: Code)
    requires Legal(steps) && code in Run(steps).grants
    ensures exists k: nat :: InsertedBy(steps, k, code, Run(steps).grants[code])
  {
    var before := Run(Front(steps));
    if code in before.grants {
      GrantsWereInserted(Front(steps), code);
      GrantsStay(before, Last(steps));
      var k: nat :| InsertedBy(Front(steps), k, code, before.grants[code]);
      assert InsertedBy(steps, k, code, Run(steps).grants[code]);
    } else {
      assert InsertedBy(steps, |steps| - 1, code, Run(steps).grants[code]);
    }
  }

  /**
   * A pair goes only to an exchange whose client, redirect and verifier are those of the request the
   * code was made for, to the user who made it, and only if it looked less than 300 s after that.
   */
  lemma PairsMatchTheirRequest(steps: seq<Step>, i: nat)
    requires Legal(steps) && i < |Run(steps).pairs|
    ensures exists k: nat ::
              var p := Run(steps).pairs[i];
              && k < |steps| && steps[k].Insert? && steps[k].code == p.x.code && steps[k].user == p.user
              && steps[k].clientId == p.x.clientId && steps[k].redirectUri == p.x.redirectUri
              && steps[k].challengeMethod == "S256" && steps[k].challenge == HashOf(p.x.verifier)
              && p.seenAt < steps[k].at + 300 * 1000
  {
    RunKeeps(steps);
    var p := Run(steps).pairs[i];
    assert PairSound(Run(steps), p);
    GrantsWereInserted(steps, p.x.code);
    var k: nat :| InsertedBy(steps, k, p.x.code, Run(steps).grants[p.x.code]);
    assert steps[k].Insert?;
  }

  /** One exchange with nothing between its statements. */
  ghost function Uninterrupted(s: State, req: RequestId, x: Exchange, at: int, claimAt: int): State
    requires req !in s.flights
  {
    var loaded := Apply(s, Load(req, x));
    var checked := Apply(loaded, Check(req, at));
    if req !in checked.flights then checked
    else
      var claimed := Apply(checked, Claim(req, claimAt));
      if req !in claimed.flights then claimed else Apply(claimed, IssuePair(req))
  }

  /** The checks let through exactly the exchanges that are entitled to a code still unused. */
  lemma RefusedUnlessEntitled(s: State, x: Exchange, at: int)
    requires Inv(s)
    ensures Refused(Found(s.codes, s.users, x.code), x, at).None? <==>
            Claimable(s.codes, x.code) && Entitled(s, x, s.codes[x.code].user, at)
  {
    if x.code in s.codes {
      assert IsGrant(s, x.code, s.codes[x.code]);
    }
  }

  /** Left alone, an exchange gets its pair exactly when the code is still unused and it is entitled to it. */
  lemma AloneIsIssuedIffEntitled(steps: seq<Step>, req: RequestId, x: Exchange, at: int, claimAt: int)
    requires Legal(steps) && req !in Run(steps).flights
    ensures var s := Run(steps);
            Uninterrupted(s, req, x, at, claimAt).pairs ==
            if Claimable(s.codes, x.code) && Entitled(s, x, s.codes[x.code].user, at)
            then s.pairs + [Pair(x, s.codes[x.code].user, at)]
            else s.pairs
  {
    RunKeeps(steps);
    var s := Run(steps);
    RefusedUnlessEntitled(s, x, at);
    var record := Found(s.codes, s.users, x.code);
    var loaded := Apply(s, Load(req, x));
    assert loaded.flights[req] == Loaded(x, record);
    var checked := Apply(loaded, Check(req, at));
    hide Entitled, Inv, Run, Legal, Refused;
    if Refused(record, x, at).None? {
      var user := s.codes[x.code].user;
      assert checked.flights[req] == Approved(x, user, at) && checked.codes == s.codes && user in s.users;
      var claimed := Apply(checked, Claim(req, claimAt));
      assert claimed.flights[req] == Claimed(x, user, at) && claimed.users == s.users;
      assert Apply(claimed, IssuePair(req)).pairs == s.pairs + [Pair(x, user, at)];
    } else {
      assert req !in checked.flights;
    }
  }

  /** What makes an unused code unusable: claiming it, purging it after its 300 s, or removing its user. */
  ghost predicate Ends(s: State, step: Step, code: Code)
    requires code in s.grants
  {
    match step
    case Claim(req, _) => req in s.flights && s.flights[req].Approved? && s.flights[req].x.code == code
    case Purge(at) => s.grants[code].createdAt + 300 * 1000 < at
    case RemoveUser(user) => s.grants[code].user == user
    case _ => false
  }

  /** An unused code stays usable exactly when the statement is none that ends it. */
  lemma UsableUnlessEnded(steps: seq<Step>, step: Step, code: Code)
    requires Legal(steps) && Enabled(Run(steps), step) && Claimable(Run(steps).codes, code)
    ensures code in Run(steps).grants
    ensures Claimable(Apply(Run(steps), step).codes, code) <==> !Ends(Run(steps), step, code)
  {
    RunKeeps(steps);
    assert IsGrant(Run(steps), code, Run(steps).codes[code]);
    hide FlightsSound, PairsSound, ClaimedOnce;
  }

  /** However it fares, the code of an exchange that ran alone to a pair is spent. */
  lemma {:induction false} SpentForGood(steps: seq<Step>, more: seq<Step>, code: Code)
    requires Legal(steps) && Legal(steps + more) && code in Run(steps).claimed
    ensures code in Run(steps + more).claimed && !Claimable(Run(steps + more).codes, code)
    decreases |more|
  {
    RunKeeps(steps + more);
    if more == [] {
      assert steps + more == steps;
    } else {
      assert Front(steps + more) == steps + Front(more) && Last(steps + more) == Last(more);
      SpentForGood(steps, Front(more), code);
      GrantsStay(Run(steps + Front(more)), Last(more));
    }
  }

  // ---------------------------------------------------------------------------------------
  // Late claims
  // ---------------------------------------------------------------------------------------

  /** The test that the claiming UPDATE leaves out: the row it marks as used has not expired. */
  ghost predicate RowUnexpired(s: State, step: Step) {
    step.Claim? && step.req in s.flights && Claimable(s.codes, s.flights[step.req].x.code) ==>
      step.at < s.codes[s.flights[step.req].x.code].expiresAt
  }

  /** Every code was claimed less than 300 s after it was made. */
  ghost predicate AllInTime(s: State) {
    forall code :: code in s.claimed ==> code in s.grants && s.claimed[code] < s.grants[code].createdAt + 300 * 1000
  }

  ghost predicate RowsUnexpired(steps: seq<Step>)
    requires Legal(steps)
  {
    steps == [] || (RowsUnexpired(Front(steps)) && RowUnexpired(Run(Front(steps)), Last(steps)))
  }

  /**
   * The UPDATE does not look at the expiry again. So an exchange that claims its code looked in time, and
   * it claims in time exactly when the row had not expired at the UPDATE either.
   */
  lemma ClaimedInTimeIff(steps: seq<Step>, req: RequestId, at: int)
    requires Legal(steps) && Enabled(Run(steps), Claim(req, at))
    requires Claimable(Run(steps).codes, Run(steps).flights[req].x.code)
    ensures var s, s', f := Run(steps), Apply(Run(steps), Claim(req, at)), Run(steps).flights[req];
            && f.x.code !in s.claimed && f.x.code in s.grants && s'.claimed == s.claimed[f.x.code := at]
            && f.seenAt < s.grants[f.x.code].createdAt + 300 * 1000
            && (at < s.grants[f.x.code].createdAt + 300 * 1000 <==> RowUnexpired(s, Claim(req, at)))
  {
    RunKeeps(steps);
    var s := Run(steps);
    assert FlightSound(s, s.flights[req]) && IsGrant(s, s.flights[req].x.code, s.codes[s.flights[req].x.code]);
  }

  lemma ClaimsOnly(s: State, step: Step)
    requires Enabled(s, step) && !(step.Claim? && Claimable(s.codes, s.flights[step.req].x.code))
    ensures Apply(s, step).claimed == s.claimed && RowUnexpired(s, step)
  {
  }

  lemma StepInTimeIff(steps: seq<Step>, step: Step)
    requires Legal(steps) && Enabled(Run(steps), step)
    ensures AllInTime(Apply(Run(steps), step)) <==> AllInTime(Run(steps)) && RowUnexpired(Run(steps), step)
  {
    hide FlightsSound, PairsSound, ClaimedOnce, Apply, RowUnexpired;
    RunKeeps(steps);
    GrantsStay(Run(steps), step);
    if step.Claim? && Claimable(Run(steps).codes, Run(steps).flights[step.req].x.code) {
      ClaimedInTimeIff(steps, step.req, step.at);
    } else {
      ClaimsOnly(Run(steps), step);
    }
  }

  /** In a whole run no code is claimed late exactly when no claiming UPDATE meets a row already expired. */
  lemma {:induction false} AllInTimeIff(steps: seq<Step>)
    requires Legal(steps)
    ensures AllInTime(Run(steps)) <==> RowsUnexpired(steps)
  {
    hide Apply, Enabled, RowUnexpired;
    if steps != [] {
      AllInTimeIff(Front(steps));
      StepInTimeIff(Front(steps), Last(steps));
    }
  }

  const SomeExchange := Exchange(5, "client", "redirect", 2)
  const SomeInsert := Insert(5, 7, "client", "redirect", HashOf(2), "S256", 0)

  lemma JustInserted() returns (steps: seq<Step>)
    ensures Legal(steps) && Run(steps).users == {7} && Run(steps).flights == map[] && Run(steps).claimed == map[]
    ensures Run(steps).codes == map[5 := NewCode(SomeInsert)] && Run(steps).grants == map[5 := NewCode(SomeInsert)]
  {
    var s1 := [AddUser(7)];
    steps := s1 + [SomeInsert];
    assert Front(s1) == [] && Run([]) == Initial;
    assert Front(steps) == s1 && Last(steps) == SomeInsert && Legal(s1);
  }

  lemma JustChecked() returns (steps: seq<Step>)
    ensures Legal(steps) && Run(steps).flights == map[9 := Approved(SomeExchange, 7, 1)] && Run(steps).claimed == map[]
    ensures Run(steps).codes == map[5 := NewCode(SomeInsert)] && Run(steps).grants == map[5 := NewCode(SomeInsert)]
  {
    var s2 := JustInserted();
    var s3 := s2 + [Load(9, SomeExchange)];
    steps := s3 + [Check(9, 1)];
    assert Front(s3) == s2 && Last(s3) == Load(9, SomeExchange) && Legal(s3);
    assert Run(s3).flights == map[9 := Loaded(SomeExchange, Some(Record(NewCode(SomeInsert), true)))];
    assert Front(steps) == s3 && Last(steps) == Check(9, 1) && Legal(steps);
  }

  /** Such an UPDATE is possible: a run in which a code is claimed after it has expired. */
  lemma ClaimedAfterExpiry()
    ensures exists steps: seq<Step> :: Legal(steps) && !AllInTime(Run(steps))
  {
    var checked := JustChecked();
    var late := Claim(9, CODE_TTL_MS + 1);
    var steps := checked + [late];
    assert Front(steps) == checked && Last(steps) == late;
    assert Legal(steps) && Run(steps) == Apply(Run(checked), late);
    assert Run(steps).claimed == map[5 := CODE_TTL_MS + 1] && Run(steps).grants == Run(checked).grants;
    hide Run, Apply, Legal;
    assert 5 in Run(steps).claimed;
  }

  // ---------------------------------------------------------------------------------------
  // The statements as the worker sends them
  // ---------------------------------------------------------------------------------------

  class DesktopCodeTable {
    var codes: map<Code, CodeRow>
    var users: set<UserId>
    var flights: map<RequestId, Stage>
    ghost var steps: seq<Step>

    /** The table and the exchanges are what the interleaving so far has made of them. */
    ghost predicate Valid()
      reads this
    {
      Legal(steps) && codes == Run(steps).codes && users == Run(steps).users && flights == Run(steps).flights
    }

    constructor ()
      ensures Valid() && steps == []
    {
      codes, users, flights, steps := map[], {}, map[], [];
    }

    /** Appending a legal step runs it. */
    twostate lemma Took(step: Step)
      requires old(Valid()) && Enabled(Run(old(steps)), step) && steps == old(steps) + [step]
      ensures Legal(steps) && Run(steps) == Apply(Run(old(steps)), step)
    {
      assert Front(steps) == old(steps);
    }

    method AddUser(user: UserId)
      requires Valid()
      modifies this
      ensures Valid() && steps == old(steps) + [Step.AddUser(user)] && users == old(users) + {user}
    {
      users := users + {user};
      steps := steps + [Step.AddUser(user)];
      Took(Step.AddUser(user));
    }

    method RemoveUser(user: UserId)
      requires Valid()
      modifies this
      ensures Valid() && steps == old(steps) + [Step.RemoveUser(user)]
      ensures users == old(users) - {user}
    {
      users := users - {user};
      codes := Without(codes, OwnedBy(user));
      steps := steps + [Step.RemoveUser(user)];
      Took(Step.RemoveUser(user));
    }

    /** The code is newly generated; the foreign key refuses one for a user who is gone. */
    method InsertCode(code: Code, user: UserId, clientId: string, redirectUri: string,
                      challenge: Challenge, challengeMethod: string, now: int)
      returns (inserted: bool)
      requires Valid() && code !in Run(steps).grants
      modifies this
      ensures Valid()
      ensures steps == old(steps) + [Insert(code, user, clientId, redirectUri, challenge, challengeMethod, now)]
      ensures inserted <==> user in old(users)
    {
      ghost var step := Insert(code, user, clientId, redirectUri, challenge, challengeMethod, now);
      inserted := user in users;
      if inserted {
        var expiresAt := now + CODE_TTL_MS;
        codes := codes[code := CodeRow(user, clientId, redirectUri, challenge, challengeMethod, now, expiresAt, None)];
      }
      steps := steps + [step];
      Took(step);
    }

    method PurgeExpired(now: int)
      requires Valid()
      modifies this
      ensures Valid() && steps == old(steps) + [Purge(now)]
    {
      codes := Without(codes, ExpiredBefore(now));
      steps := steps + [Purge(now)];
      Took(Purge(now));
    }

    method LoadRecord(req: RequestId, x: Exchange)
      requires Valid() && req !in flights
      modifies this
      ensures Valid() && steps == old(steps) + [Load(req, x)]
    {
      flights := flights[req := Loaded(x, Found(codes, users, x.code))];
      steps := steps + [Load(req, x)];
      Took(Load(req, x));
    }

    /** Compares the loaded record with the request; the table may have changed since. */
    method CheckRecord(req: RequestId, now: int) returns (refusal: Option<Refusal>)
      requires Valid() && req in flights && flights[req].Loaded?
      modifies this
      ensures Valid() && steps == old(steps) + [Check(req, now)]
      ensures refusal == Refused(old(flights)[req].record, old(flights)[req].x, now)
      ensures refusal.None? ==>
                Entitled(Run(steps), old(flights)[req].x, old(flights)[req].record.value.row.user, now)
    {
      var x, record := flights[req].x, flights[req].record;
      RunKeeps(steps);
      assert FlightSound(Run(steps), flights[req]);
      refusal := Refused(record, x, now);
      if refusal.Some? {
        flights := flights - {req};
      } else {
        flights := flights[req := Approved(x, record.value.row.user, now)];
      }
      steps := steps + [Check(req, now)];
      Took(Check(req, now));
    }

    /** The conditional UPDATE; a request that changes no row is refused. */
    method ClaimCode(req: RequestId, now: int) returns (refusal: Option<Refusal>)
      requires Valid() && req in flights && flights[req].Approved?
      modifies this
      ensures Valid() && steps == old(steps) + [Claim(req, now)]
      ensures refusal == if Claimable(old(codes), old(flights)[req].x.code) then None else Some(AlreadyUsed)
      ensures !Claimable(codes, old(flights)[req].x.code)
      ensures req in flights <==> refusal.None?
    {
      var f := flights[req];
      if Claimable(codes, f.x.code) {
        codes := codes[f.x.code := codes[f.x.code].(usedAt := Some(now))];
        flights := flights[req := Claimed(f.x, f.user, f.seenAt)];
        refusal := None;
      } else {
        flights := flights - {req};
        refusal := Some(AlreadyUsed);
      }
      steps := steps + [Claim(req, now)];
      Took(Claim(req, now));
    }

    /** Inserting the session row is `DesktopSessions.Issue`; it fails if the user has gone meanwhile. */
    method IssueDesktopTokenPair(req: RequestId) returns (issued: bool)
      requires Valid() && req in flights && flights[req].Claimed?
      modifies this
      ensures Valid() && steps == old(steps) + [IssuePair(req)]
      ensures issued <==> old(flights)[req].user in users
      ensures req !in flights
      ensures var f := old(flights)[req];
              Run(steps).pairs == Run(old(steps)).pairs + if issued then [Pair(f.x, f.user, f.seenAt)] else []
    {
      issued := flights[req].user in users;
      flights := flights - {req};
      steps := steps + [IssuePair(req)];
      Took(IssuePair(req));
    }

    method Crash(req: RequestId)
      requires Valid()
      modifies this
      ensures Valid() && steps == old(steps) + [Abandon(req)] && req !in flights
    {
      flights := flights - {req};
      steps := steps + [Abandon(req)];
      Took(Abandon(req));
    }
  }
}
