/**
  Sessions and app grants of `registry.rs`, as a state machine of calls in flight.

  Every operation reads the clock, then takes the session lock once or twice, and a grant
  reads the clock again and draws a sequence number after the lock is released. Each of
  these is one action here, so calls interleave at every point where the source lets them.
 */
module Sessions {
  import opened Options
  type Key = string
  type AppId = string

  const I64_MAX: int := 0x7FFF_FFFF_FFFF_FFFF
  const U64_COUNT: nat := 0x1_0000_0000_0000_0000

  /** A trusted identity; `key` is its credential fingerprint in hexadecimal. */
  datatype Identity = Identity(key: Key, subject: string, scopes: set<string>)
  datatype App = App(capabilities: set<string>, grantScopes: set<string>, allowedSubjects: set<string>)
  datatype Config = Config(sessionTtl: int, grantTtl: int, apps: map<AppId, App>)

  /** What registration and the session policy check before the platform is built. */
  ghost predicate ValidConfig(c: Config) {
    && 0 < c.grantTtl < c.sessionTtl
    && (forall a :: a in c.apps ==> a != "" && c.apps[a].grantScopes <= c.apps[a].capabilities)
  }

  datatype Session = Session(issuedAt: int, expiresAt: int, generation: nat, revoked: set<AppId>)

  datatype Failure = Unauthenticated | Expired | Internal | InvalidRequest | NotFound | Forbidden

  datatype Operation =
    | CurrentSession | RefreshSession | RevokeSession | ListApps
    | AuthorizeApp(app: AppId) | RefreshApp(app: AppId) | RevokeApp(app: AppId)

  /** How far a call has got: before its first lock, between the locks, past the second, stamped. */
  datatype Stage =
    | Begun
    | Checked(sessionExpiry: int)
    | Cleared(sessionExpiry: int)
    | Stamped(sessionExpiry: int, issuedAt: int, expiresAt: int)

  datatype Call = Call(op: Operation, who: Identity, begun: int, stage: Stage)

  datatype Grant = Grant(sequence: nat, who: Identity, app: AppId, scopes: set<string>,
                         issuedAt: int, expiresAt: int, sessionExpiry: int, begun: int)

  datatype Event =
    | Failed(key: Key, failure: Failure)
    | SessionIssued(key: Key, session: Session)
    | SessionReturned(key: Key)
    | SessionEnded(key: Key)
    | AppsListed(key: Key)
    | Reauthorized(key: Key, app: AppId)
    | AppRevoked(key: Key, app: AppId)
    | Granted(key: Key, op: Operation, grant: Grant)

  /** Shared state, calls in flight, and the history of what calls did. */
  datatype Platform = Platform(clock: int, sessions: map<Key, Session>, counter: nat,
                               calls: map<nat, Call>, log: seq<Event>)

  datatype Action = Tick(seconds: nat) | Begin(id: nat, op: Operation, who: Identity) | Advance(id: nat)

  function Initial(clock: int): Platform {
    Platform(clock, map[], 0, map[], [])
  }

  // ---------- The critical sections ----------

  function NewSession(c: Config, clock: int, generation: nat): Option<Session> {
    if clock + c.sessionTtl > I64_MAX then None
    else Some(Session(clock, clock + c.sessionTtl, generation, {}))
  }

  function AppFailure(c: Config, who: Identity, app: AppId): Option<Failure> {
    if app == "" then Some(InvalidRequest)
    else if app !in c.apps then Some(NotFound)
    else if who.subject !in c.apps[app].allowedSubjects then Some(Forbidden)
    else None
  }

  function Finish(s: Platform, id: nat, e: Event): Platform {
    s.(calls := s.calls - {id}, log := s.log + [e])
  }

  function Store(s: Platform, key: Key, session: Session): Platform {
    s.(sessions := s.sessions[key := session])
  }

  function Proceed(s: Platform, id: nat, call: Call, stage: Stage): Platform {
    s.(calls := s.calls[id := call.(stage := stage)])
  }

  /** First lock: look the session up; create, replace or remove it, or take a copy of it. */
  function FirstLock(c: Config, s: Platform, id: nat, call: Call): Platform {
    var key := call.who.key;
    match call.op
    case CurrentSession =>
      if key in s.sessions then
        Finish(s, id, if call.begun >= s.sessions[key].expiresAt then Failed(key, Expired) else SessionReturned(key))
      else IssueInto(c, s, id, key, 0)
    case RefreshSession =>
      if key !in s.sessions then Finish(s, id, Failed(key, Unauthenticated))
      else if call.begun >= s.sessions[key].expiresAt then Finish(s, id, Failed(key, Expired))
      else if s.sessions[key].generation + 1 >= U64_COUNT then Finish(s, id, Failed(key, Internal))
      else IssueInto(c, s, id, key, s.sessions[key].generation + 1)
    case RevokeSession =>
      if key !in s.sessions then Finish(s, id, Failed(key, Unauthenticated))
      else Finish(s.(sessions := s.sessions - {key}), id, SessionEnded(key))
    case ListApps =>
      if key !in s.sessions then Finish(s, id, Failed(key, Unauthenticated))
      else Finish(s, id, if call.begun >= s.sessions[key].expiresAt then Failed(key, Expired) else AppsListed(key))
    case AuthorizeApp(app) => CheckApp(c, s, id, call, app)
    case RefreshApp(app) => CheckApp(c, s, id, call, app)
    case RevokeApp(app) => CheckApp(c, s, id, call, app)
  }

  function CheckApp(c: Config, s: Platform, id: nat, call: Call, app: AppId): Platform {
    var key := call.who.key;
    if key !in s.sessions then Finish(s, id, Failed(key, Unauthenticated))
    else if call.begun >= s.sessions[key].expiresAt then Finish(s, id, Failed(key, Expired))
    else
      match AppFailure(c, call.who, app)
      case Some(f) => Finish(s, id, Failed(key, f))
      case None => Proceed(s, id, call, Checked(s.sessions[key].expiresAt))
  }

  function IssueInto(c: Config, s: Platform, id: nat, key: Key, generation: nat): Platform {
    match NewSession(c, s.clock, generation)
    case None => Finish(s, id, Failed(key, Internal))
    case Some(session) => Finish(Store(s, key, session), id, SessionIssued(key, session))
  }

  /** Second lock of an app call, on whatever session the identity has by then. */
  function SecondLock(s: Platform, id: nat, call: Call): Platform
    requires call.stage.Checked? && (call.op.AuthorizeApp? || call.op.RefreshApp? || call.op.RevokeApp?)
  {
    var key, app := call.who.key, call.op.app;
    if key !in s.sessions then Finish(s, id, Failed(key, Unauthenticated))
    else
      var session := s.sessions[key];
      match call.op
      case AuthorizeApp(_) =>
        var t := Proceed(Store(s, key, session.(revoked := session.revoked - {app})), id, call,
                         Cleared(call.stage.sessionExpiry));
        t.(log := t.log + [Reauthorized(key, app)])
      case RefreshApp(_) =>
        if app in session.revoked then Finish(s, id, Failed(key, Expired))
        else Proceed(s, id, call, Cleared(call.stage.sessionExpiry))
      case RevokeApp(_) =>
        Finish(Store(s, key, session.(revoked := session.revoked + {app})), id, AppRevoked(key, app))
  }

  /** First half of issue_grant: read the clock and bound the expiry. */
  function Stamp(c: Config, s: Platform, id: nat, call: Call): Platform
    requires call.stage.Cleared?
  {
    var issuedAt, limit := s.clock, call.stage.sessionExpiry;
    if issuedAt + c.grantTtl > I64_MAX then Finish(s, id, Failed(call.who.key, Internal))
    else
      var expiresAt := if issuedAt + c.grantTtl < limit then issuedAt + c.grantTtl else limit;
      if expiresAt <= issuedAt then Finish(s, id, Failed(call.who.key, Expired))
      else Proceed(s, id, call, Stamped(limit, issuedAt, expiresAt))
  }

  /** Second half: draw the sequence number, which wraps as an unsigned 64-bit counter does. */
  function IssueGrant(c: Config, s: Platform, id: nat, call: Call): Platform
    requires call.stage.Stamped? && (call.op.AuthorizeApp? || call.op.RefreshApp?) && call.op.app in c.apps
  {
    var grant := Grant(s.counter % U64_COUNT, call.who, call.op.app,
                       c.apps[call.op.app].grantScopes * call.who.scopes,
                       call.stage.issuedAt, call.stage.expiresAt, call.stage.sessionExpiry, call.begun);
    Finish(s.(counter := s.counter + 1), id, Granted(call.who.key, call.op, grant))
  }

  /** A call carries only what its operation can have. */
  predicate WellFormed(c: Config, call: Call) {
    && (call.stage.Checked? ==> call.op.AuthorizeApp? || call.op.RefreshApp? || call.op.RevokeApp?)
    && (call.stage.Cleared? || call.stage.Stamped? ==>
        (call.op.AuthorizeApp? || call.op.RefreshApp?))
    && (!call.stage.Begun? && (call.op.AuthorizeApp? || call.op.RefreshApp? || call.op.RevokeApp?) ==>
        AppFailure(c, call.who, call.op.app).None?)
  }

  function Step(c: Config, s: Platform, a: Action): Platform {
    match a
    case Tick(seconds) => s.(clock := s.clock + seconds)
    case Begin(id, op, who) =>
      if id in s.calls then s else s.(calls := s.calls[id := Call(op, who, s.clock, Begun)])
    case Advance(id) =>
      if id !in s.calls || !WellFormed(c, s.calls[id]) then s
      else
        var call := s.calls[id];
        match call.stage
        case Begun => FirstLock(c, s, id, call)
        case Checked(_) => SecondLock(s, id, call)
        case Cleared(_) => Stamp(c, s, id, call)
        case Stamped(_, _, _) => IssueGrant(c, s, id, call)
  }

  function Run(c: Config, s: Platform, actions: seq<Action>): Platform {
    if actions == [] then s
    else Step(c, Run(c, s, actions[..|actions| - 1]), actions[|actions| - 1])
  }

  // ---------- What every reachable state keeps ----------

  ghost predicate GoodSession(c: Config, s: Session, clock: int) {
    && s.issuedAt <= clock && s.expiresAt == s.issuedAt + c.sessionTtl <= I64_MAX
    && s.generation < U64_COUNT
  }

  ghost predicate GoodCall(c: Config, call: Call, clock: int) {
    && WellFormed(c, call) && call.begun <= clock
    && (!call.stage.Begun? ==> call.begun < call.stage.sessionExpiry)
    && (call.stage.Stamped? ==>
        call.begun <= call.stage.issuedAt < call.stage.expiresAt <= call.stage.sessionExpiry
        && call.stage.expiresAt <= call.stage.issuedAt + c.grantTtl)
  }

  /** What a grant promises: a short life inside a session live during the call, and no excess scope. */
  ghost predicate GoodGrant(c: Config, g: Grant) {
    && g.begun <= g.issuedAt < g.expiresAt <= g.sessionExpiry && g.expiresAt <= g.issuedAt + c.grantTtl
    && g.app in c.apps && g.who.subject in c.apps[g.app].allowedSubjects
    && g.scopes <= g.who.scopes && g.scopes <= c.apps[g.app].capabilities
  }

  function Grants(log: seq<Event>): seq<Grant> {
    if log == [] then []
    else
      var rest, last := Grants(log[..|log| - 1]), log[|log| - 1];
      if last.Granted? then rest + [last.grant] else rest
  }

  ghost predicate GoodGrants(c: Config, grants: seq<Grant>) {
    forall i :: 0 <= i < |grants| ==> GoodGrant(c, grants[i]) && grants[i].sequence == i % U64_COUNT
  }

  ghost predicate Inv(c: Config, s: Platform) {
    && (forall k :: k in s.sessions ==> GoodSession(c, s.sessions[k], s.clock))
    && (forall id :: id in s.calls ==> GoodCall(c, s.calls[id], s.clock))
    && s.counter == |Grants(s.log)| && GoodGrants(c, Grants(s.log))
  }

  lemma GrantsAppend(log: seq<Event>, e: Event)
    ensures Grants(log + [e]) == if e.Granted? then Grants(log) + [e.grant] else Grants(log)
  {
    assert (log + [e])[..|log|] == log;
  }

  lemma FinishKeeps(c: Config, s: Platform, id: nat, e: Event)
    requires Inv(c, s) && !e.Granted?
    ensures Inv(c, Finish(s, id, e))
  {
    GrantsAppend(s.log, e);
    hide Grants, GoodGrants, GoodCall, GoodSession;
  }

  lemma StoreKeeps(c: Config, s: Platform, key: Key, session: Session)
    requires Inv(c, s) && GoodSession(c, session, s.clock)
    ensures Inv(c, Store(s, key, session))
  {
    hide Grants, GoodGrants, GoodCall, GoodSession;
  }

  lemma RemoveKeeps(c: Config, s: Platform, key: Key)
    requires Inv(c, s)
    ensures Inv(c, s.(sessions := s.sessions - {key}))
  {
    hide Grants, GoodGrants, GoodCall, GoodSession;
  }

  lemma ProceedKeeps(c: Config, s: Platform, id: nat, call: Call, stage: Stage)
    requires Inv(c, s) && GoodCall(c, call.(stage := stage), s.clock)
    ensures Inv(c, Proceed(s, id, call, stage))
  {
    hide Grants, GoodGrants, GoodCall, GoodSession;
  }

  lemma NoteKeeps(c: Config, s: Platform, e: Event)
    requires Inv(c, s) && !e.Granted?
    ensures Inv(c, s.(log := s.log + [e]))
  {
    GrantsAppend(s.log, e);
    hide Grants, GoodGrants, GoodCall, GoodSession;
  }

  lemma IssueIntoKeeps(c: Config, s: Platform, id: nat, key: Key, generation: nat)
    requires ValidConfig(c) && Inv(c, s) && generation < U64_COUNT
    ensures Inv(c, IssueInto(c, s, id, key, generation))
  {
    hide Inv, Finish, Store;
    match NewSession(c, s.clock, generation)
    case None => FinishKeeps(c, s, id, Failed(key, Internal));
    case Some(session) =>
      StoreKeeps(c, s, key, session);
      FinishKeeps(c, Store(s, key, session), id, SessionIssued(key, session));
  }

  lemma CheckAppKeeps(c: Config, s: Platform, id: nat, call: Call, app: AppId)
    requires Inv(c, s) && id in s.calls && s.calls[id] == call && call.stage.Begun?
    requires (call.op.AuthorizeApp? || call.op.RefreshApp? || call.op.RevokeApp?) && call.op.app == app
    ensures Inv(c, CheckApp(c, s, id, call, app))
  {
    var key := call.who.key;
    if key !in s.sessions {
      FinishKeeps(c, s, id, Failed(key, Unauthenticated));
    } else if call.begun >= s.sessions[key].expiresAt {
      FinishKeeps(c, s, id, Failed(key, Expired));
    } else {
      match AppFailure(c, call.who, app) {
        case Some(f) => FinishKeeps(c, s, id, Failed(key, f));
        case None => ProceedKeeps(c, s, id, call, Checked(s.sessions[key].expiresAt));
      }
    }
    hide Inv, Finish, Proceed;
  }

  lemma FirstLockKeeps(c: Config, s: Platform, id: nat, call: Call)
    requires ValidConfig(c) && Inv(c, s) && id in s.calls && s.calls[id] == call && call.stage.Begun?
    ensures Inv(c, FirstLock(c, s, id, call))
  {
    hide Finish, IssueInto, CheckApp, Grants, GoodGrants, GoodCall;
    var key := call.who.key;
    match call.op {
      case CurrentSession =>
        FinishKeeps(c, s, id, Failed(key, Expired));
        FinishKeeps(c, s, id, SessionReturned(key));
        IssueIntoKeeps(c, s, id, key, 0);
      case RefreshSession =>
        FinishKeeps(c, s, id, Failed(key, Unauthenticated));
        FinishKeeps(c, s, id, Failed(key, Expired));
        FinishKeeps(c, s, id, Failed(key, Internal));
        if key in s.sessions && s.sessions[key].generation + 1 < U64_COUNT {
          IssueIntoKeeps(c, s, id, key, s.sessions[key].generation + 1);
        }
      case RevokeSession =>
        FinishKeeps(c, s, id, Failed(key, Unauthenticated));
        RemoveKeeps(c, s, key);
        FinishKeeps(c, s.(sessions := s.sessions - {key}), id, SessionEnded(key));
      case ListApps =>
        FinishKeeps(c, s, id, Failed(key, Unauthenticated));
        FinishKeeps(c, s, id, Failed(key, Expired));
        FinishKeeps(c, s, id, AppsListed(key));
      case AuthorizeApp(app) => CheckAppKeeps(c, s, id, call, app);
      case RefreshApp(app) => CheckAppKeeps(c, s, id, call, app);
      case RevokeApp(app) => CheckAppKeeps(c, s, id, call, app);
    }
  }

  lemma SecondLockKeeps(c: Config, s: Platform, id: nat, call: Call)
    requires ValidConfig(c) && Inv(c, s) && id in s.calls && s.calls[id] == call && call.stage.Checked?
    ensures Inv(c, SecondLock(s, id, call))
  {
    var key, app := call.who.key, call.op.app;
    if key !in s.sessions {
      FinishKeeps(c, s, id, Failed(key, Unauthenticated));
    } else {
      var session := s.sessions[key];
      hide Finish, Grants, GoodGrants;
      match call.op {
        case AuthorizeApp(_) =>
          var cleared := session.(revoked := session.revoked - {app});
          StoreKeeps(c, s, key, cleared);
          ProceedKeeps(c, Store(s, key, cleared), id, call, Cleared(call.stage.sessionExpiry));
          NoteKeeps(c, Proceed(Store(s, key, cleared), id, call, Cleared(call.stage.sessionExpiry)), Reauthorized(key, app));
        case RefreshApp(_) =>
          FinishKeeps(c, s, id, Failed(key, Expired));
          ProceedKeeps(c, s, id, call, Cleared(call.stage.sessionExpiry));
        case RevokeApp(_) =>
          var marked := session.(revoked := session.revoked + {app});
          StoreKeeps(c, s, key, marked);
          FinishKeeps(c, Store(s, key, marked), id, AppRevoked(key, app));
      }
    }
  }

  lemma StampKeeps(c: Config, s: Platform, id: nat, call: Call)
    requires ValidConfig(c) && Inv(c, s) && id in s.calls && s.calls[id] == call && call.stage.Cleared?
    ensures Inv(c, Stamp(c, s, id, call))
  {
    var issuedAt, limit := s.clock, call.stage.sessionExpiry;
    var expiresAt := if issuedAt + c.grantTtl < limit then issuedAt + c.grantTtl else limit;
    assert GoodCall(c, call, s.clock);
    if issuedAt + c.grantTtl > I64_MAX {
      FinishKeeps(c, s, id, Failed(call.who.key, Internal));
    } else if expiresAt <= issuedAt {
      FinishKeeps(c, s, id, Failed(call.who.key, Expired));
    } else {
      ProceedKeeps(c, s, id, call, Stamped(limit, issuedAt, expiresAt));
    }
    hide Inv, Finish, Proceed;
  }

  lemma IssueGrantKeeps(c: Config, s: Platform, id: nat, call: Call)
    requires ValidConfig(c) && Inv(c, s) && id in s.calls && s.calls[id] == call && call.stage.Stamped?
    ensures Inv(c, IssueGrant(c, s, id, call))
  {
    var t := IssueGrant(c, s, id, call);
    GrantsAppend(s.log, t.log[|s.log|]);
    assert GoodGrant(c, t.log[|s.log|].grant);
    hide Grants, GoodGrant;
  }

  lemma StepKeepsInv(c: Config, s: Platform, a: Action)
    requires ValidConfig(c) && Inv(c, s)
    ensures Inv(c, Step(c, s, a))
  {
    match a
    case Tick(_) => hide Grants, GoodGrants;
    case Begin(id, op, who) => hide Grants, GoodGrants;
    case Advance(id) =>
      if id in s.calls && WellFormed(c, s.calls[id]) {
        var call := s.calls[id];
        hide FirstLock, SecondLock, Stamp, IssueGrant, Grants, GoodGrants;
        match call.stage
        case Begun => FirstLockKeeps(c, s, id, call);
        case Checked(_) => SecondLockKeeps(c, s, id, call);
        case Cleared(_) => StampKeeps(c, s, id, call);
        case Stamped(_, _, _) => IssueGrantKeeps(c, s, id, call);
      }
  }

  /** Over every run from any good state, whatever the interleaving. */
  lemma {:induction false} FromKeepsInv(c: Config, s: Platform, actions: seq<Action>)
    requires ValidConfig(c) && Inv(c, s)
    ensures Inv(c, Run(c, s, actions))
    decreases |actions|
  {
    hide Step, Inv;
    if actions != [] {
      FromKeepsInv(c, s, actions[..|actions| - 1]);
      StepKeepsInv(c, Run(c, s, actions[..|actions| - 1]), actions[|actions| - 1]);
    }
  }

  lemma RunKeepsInv(c: Config, clock: int, actions: seq<Action>)
    requires ValidConfig(c)
    ensures Inv(c, Run(c, Initial(clock), actions))
  {
    hide Step, Inv, Run;
    InitialInv(c, clock);
    FromKeepsInv(c, Initial(clock), actions);
  }

  lemma InitialInv(c: Config, clock: int)
    ensures Inv(c, Initial(clock))
  {
  }

  /** Sequence numbers are fresh: no two grants share one before the 64-bit counter wraps. */
  lemma FreshSequenceNumbers(c: Config, clock: int, actions: seq<Action>, i: nat, j: nat)
    requires ValidConfig(c)
    requires var g := Grants(Run(c, Initial(clock), actions).log); i < j < |g| <= U64_COUNT
    ensures var g := Grants(Run(c, Initial(clock), actions).log); g[i].sequence != g[j].sequence
  {
    RunKeepsInv(c, clock, actions);
    var g := Grants(Run(c, Initial(clock), actions).log);
    assert GoodGrants(c, g);
    hide *;
    SequenceAt(c, g, i);
    SequenceAt(c, g, j);
  }

  lemma SequenceAt(c: Config, g: seq<Grant>, i: nat)
    requires GoodGrants(c, g) && i < |g| <= U64_COUNT
    ensures g[i].sequence == i
  {
    hide GoodGrant;
  }

  /** Every grant of every run is a good grant. */
  lemma EveryGrantGood(c: Config, clock: int, actions: seq<Action>, i: nat)
    requires ValidConfig(c) && i < |Run(c, Initial(clock), actions).log|
    requires Run(c, Initial(clock), actions).log[i].Granted?
    ensures GoodGrant(c, Run(c, Initial(clock), actions).log[i].grant)
  {
    RunKeepsInv(c, clock, actions);
    hide Run, GoodGrant;
    GrantListed(Run(c, Initial(clock), actions).log, i);
  }

  lemma {:induction false} GrantListed(log: seq<Event>, i: nat)
    requires i < |log| && log[i].Granted?
    ensures log[i].grant in Grants(log)
  {
    if i < |log| - 1 { GrantListed(log[..|log| - 1], i); }
  }

  // ---------- One step, seen from one identity ----------

  /** The identity whose call an action moves, if any. */
  predicate Moves(s: Platform, a: Action, k: Key) {
    a.Advance? && a.id in s.calls && s.calls[a.id].who.key == k
  }

  /** How the entry of an identity may change, and the event that goes with it. */
  ghost predicate EntryChange(before: map<Key, Session>, after: map<Key, Session>, k: Key, e: Event) {
    match e
    case SessionIssued(_, t) =>
      && k in after && after[k] == t && t.revoked == {}
      && t.generation == (if k in before then before[k].generation + 1 else 0)
    case SessionEnded(_) => k in before && k !in after
    case Reauthorized(_, app) =>
      k in before && k in after && after[k] == before[k].(revoked := before[k].revoked - {app})
    case AppRevoked(_, app) =>
      k in before && k in after && after[k] == before[k].(revoked := before[k].revoked + {app})
    case _ => SameEntry(before, after, k)
  }

  ghost predicate SameEntry(before: map<Key, Session>, after: map<Key, Session>, k: Key) {
    (k in before <==> k in after) && (k in before ==> before[k] == after[k])
  }

  /** A step logs at most one event, and one of the identity whose call moved. */
  ghost predicate Logged(s: Platform, t: Platform, k: Key) {
    t.log == s.log || (|t.log| == |s.log| + 1 && t.log[..|s.log|] == s.log && t.log[|s.log|].key == k)
  }

  lemma FirstLockEffect(c: Config, s: Platform, id: nat, call: Call)
    ensures var t := FirstLock(c, s, id, call); var k := call.who.key;
      && Logged(s, t, k) && t.clock == s.clock
      && (forall j :: j != k ==> SameEntry(s.sessions, t.sessions, j))
      && (t.log == s.log ==> t.sessions == s.sessions)
      && (t.log != s.log ==> EntryChange(s.sessions, t.sessions, k, t.log[|s.log|]) && t.calls == s.calls - {id})
      && (t.log == s.log ==> k in s.sessions && call.begun < s.sessions[k].expiresAt
                             && t.calls == s.calls[id := call.(stage := Checked(s.sessions[k].expiresAt))])
      && (t.log != s.log && !t.log[|s.log|].Failed? && k in s.sessions && !call.op.RevokeSession? ==>
          call.begun < s.sessions[k].expiresAt)
      && (t.log != s.log ==> !t.log[|s.log|].Granted? && (t.log[|s.log|].SessionEnded? ==> call.op.RevokeSession?))
      && (call.op.RevokeSession? && k in s.sessions ==> t.log == s.log + [SessionEnded(k)])
  {
    if call.op.AuthorizeApp? || call.op.RefreshApp? || call.op.RevokeApp? {
      CheckAppEffect(c, s, id, call, call.op.app);
    }
    hide CheckApp;
  }

  lemma CheckAppEffect(c: Config, s: Platform, id: nat, call: Call, app: AppId)
    ensures var t := CheckApp(c, s, id, call, app); var k := call.who.key;
      && Logged(s, t, k) && t.clock == s.clock && t.sessions == s.sessions
      && (t.log != s.log ==> t.log[|s.log|].Failed? && t.calls == s.calls - {id})
      && (t.log == s.log ==> k in s.sessions && call.begun < s.sessions[k].expiresAt
                             && t.calls == s.calls[id := call.(stage := Checked(s.sessions[k].expiresAt))])
  {
  }

  lemma SecondLockEffect(s: Platform, id: nat, call: Call)
    requires call.stage.Checked? && (call.op.AuthorizeApp? || call.op.RefreshApp? || call.op.RevokeApp?)
    ensures var t := SecondLock(s, id, call); var k := call.who.key;
      && Logged(s, t, k) && t.clock == s.clock
      && (forall j :: j != k ==> SameEntry(s.sessions, t.sessions, j))
      && (t.log == s.log ==> t.sessions == s.sessions)
      && (t.log != s.log ==> EntryChange(s.sessions, t.sessions, k, t.log[|s.log|]) && !t.log[|s.log|].Granted?)
      && (forall i :: i != id ==> (i in t.calls <==> i in s.calls) && (i in t.calls ==> t.calls[i] == s.calls[i]))
      && (id in t.calls ==> t.calls[id] == call.(stage := Cleared(call.stage.sessionExpiry)))
      && (id in t.calls && call.op.RefreshApp? ==> k in s.sessions && call.op.app !in s.sessions[k].revoked)
  {
  }

  /** A grant bounded by this session expiry can no longer be issued. */
  predicate Doomed(c: Config, clock: int, sessionExpiry: int) {
    clock >= sessionExpiry || clock + c.grantTtl > I64_MAX
  }

  lemma LaterEffect(c: Config, s: Platform, id: nat, call: Call)
    requires WellFormed(c, call) && (call.stage.Cleared? || call.stage.Stamped?)
    ensures var t := if call.stage.Cleared? then Stamp(c, s, id, call) else IssueGrant(c, s, id, call);
      && Logged(s, t, call.who.key) && t.clock == s.clock && t.sessions == s.sessions
      && (t.log != s.log ==> t.log[|s.log|].Failed? || (t.log[|s.log|].Granted? && t.log[|s.log|].op == call.op))
      && (forall i :: i != id ==> (i in t.calls <==> i in s.calls) && (i in t.calls ==> t.calls[i] == s.calls[i]))
      && (id in t.calls ==> t.calls[id].stage.Stamped? && t.calls[id].op == call.op && t.calls[id].who == call.who)
      && (call.stage.Cleared? && Doomed(c, s.clock, call.stage.sessionExpiry) ==>
          t.log != s.log && t.log[|s.log|].Failed? && id !in t.calls)
  {
  }

  /** No step touches the entry of an identity whose call it does not move. */
  lemma OthersUntouched(c: Config, s: Platform, a: Action, k: Key)
    requires !Moves(s, a, k)
    ensures SameEntry(s.sessions, Step(c, s, a).sessions, k)
    ensures Step(c, s, a).log == s.log
            || exists e :: Step(c, s, a).log == s.log + [e] && e.key != k
  {
    if a.Advance? && a.id in s.calls && WellFormed(c, s.calls[a.id]) {
      var call := s.calls[a.id];
      hide FirstLock, SecondLock, Stamp, IssueGrant, WellFormed;
      var t := Step(c, s, a);
      match call.stage {
        case Begun => FirstLockEffect(c, s, a.id, call);
        case Checked(_) => CheckedIsApp(c, call); SecondLockEffect(s, a.id, call);
        case Cleared(_) => LaterEffect(c, s, a.id, call);
        case Stamped(_, _, _) => LaterEffect(c, s, a.id, call);
      }
      if t.log != s.log { assert t.log == s.log + [t.log[|s.log|]]; }
    }
  }

  lemma CheckedIsApp(c: Config, call: Call)
    requires WellFormed(c, call) && call.stage.Checked?
    ensures call.op.AuthorizeApp? || call.op.RefreshApp? || call.op.RevokeApp?
  {
  }

  /** What a step that moves a call of `k` may do to the entry of `k`; a refresh adds exactly one generation. */
  lemma OwnEntryChange(c: Config, s: Platform, a: Action, k: Key)
    requires Moves(s, a, k)
    ensures var t := Step(c, s, a);
      && (t.log == s.log ==> t.sessions == s.sessions)
      && (t.log != s.log ==> |t.log| == |s.log| + 1 && t.log[|s.log|].key == k
                             && EntryChange(s.sessions, t.sessions, k, t.log[|s.log|]))
  {
    var call := s.calls[a.id];
    if WellFormed(c, call) {
      hide FirstLock, SecondLock, Stamp, IssueGrant, WellFormed;
      match call.stage {
        case Begun => FirstLockEffect(c, s, a.id, call);
        case Checked(_) => CheckedIsApp(c, call); SecondLockEffect(s, a.id, call);
        case Cleared(_) => LaterEffect(c, s, a.id, call);
        case Stamped(_, _, _) => LaterEffect(c, s, a.id, call);
      }
    }
  }

  // ---------- An expired session stays unusable until it is revoked ----------

  /** A call that can do nothing with the expired session of `k` but fail or revoke it. */
  predicate Harmless(c: Config, clock: int, session: Session, call: Call) {
    !WellFormed(c, call) ||
    match call.stage
    case Begun =>
      call.begun >= session.expiresAt || HarmlessEarly(c, clock, session, call)
    case Checked(expiry) => call.op.RefreshApp? && (call.op.app in session.revoked || Doomed(c, clock, expiry))
    case Cleared(expiry) => Doomed(c, clock, expiry)
    case Stamped(_, _, _) => false
  }

  /** The same for a call that has not taken its first lock but read the clock before the expiry. */
  predicate HarmlessEarly(c: Config, clock: int, session: Session, call: Call) {
    match call.op
    case CurrentSession => false
    case ListApps => false
    case RevokeSession => true
    case RefreshSession => session.generation + 1 >= U64_COUNT || clock + c.sessionTtl > I64_MAX
    case RefreshApp(_) => true
    case AuthorizeApp(app) => AppFailure(c, call.who, app).Some?
    case RevokeApp(app) => AppFailure(c, call.who, app).Some?
  }

  /** The session of `k` has expired, and every call of `k` that is under way is harmless. */
  ghost predicate Dead(c: Config, s: Platform, k: Key) {
    && k in s.sessions && s.clock >= s.sessions[k].expiresAt
    && (forall id :: id in s.calls && s.calls[id].who.key == k ==> Harmless(c, s.clock, s.sessions[k], s.calls[id]))
  }

  lemma DeadStep(c: Config, s: Platform, a: Action, k: Key)
    requires Dead(c, s, k)
    ensures var t := Step(c, s, a);
      || t.log == s.log + [SessionEnded(k)]
      || (&& Dead(c, t, k) && t.sessions[k] == s.sessions[k]
          && (t.log == s.log || exists e :: t.log == s.log + [e] && (e.key != k || e.Failed?)))
  {
    if Moves(s, a, k) {
      HarmlessStep(c, s, a.id, k);
    } else {
      OthersUntouched(c, s, a, k);
      OtherCallsKept(c, s, a, k);
    }
    hide Step, Harmless;
    forall i, clock | s.clock <= clock && i in s.calls && s.calls[i].who.key == k
      ensures Harmless(c, clock, s.sessions[k], s.calls[i])
    {
      StaysHarmless(c, s.clock, clock, s.sessions[k], s.calls[i]);
    }
  }

  lemma StaysHarmless(c: Config, clock: int, later: int, session: Session, call: Call)
    requires clock <= later && Harmless(c, clock, session, call)
    ensures Harmless(c, later, session, call)
  {
    hide WellFormed;
  }

  /** A harmless call moves: it ends the session, fails, or goes on harmlessly. */
  lemma HarmlessStep(c: Config, s: Platform, id: nat, k: Key)
    requires Dead(c, s, k) && id in s.calls && s.calls[id].who.key == k
    ensures var t := Step(c, s, Advance(id));
      || t.log == s.log + [SessionEnded(k)]
      || (&& t.sessions == s.sessions && t.clock == s.clock
          && (t.log == s.log || exists e :: t.log == s.log + [e] && e.Failed?)
          && (forall i :: i in t.calls && i != id ==> i in s.calls && t.calls[i] == s.calls[i])
          && (id in t.calls ==> t.calls[id].who.key == k && Harmless(c, t.clock, t.sessions[k], t.calls[id])))
  {
    var call := s.calls[id];
    if WellFormed(c, call) {
      match call.stage {
        case Begun => HarmlessFirst(c, s, id, k);
        case Checked(_) =>
        case Cleared(_) =>
      }
    }
  }

  lemma HarmlessFirst(c: Config, s: Platform, id: nat, k: Key)
    requires Dead(c, s, k) && id in s.calls && s.calls[id].who.key == k && s.calls[id].stage.Begun?
    ensures var t := FirstLock(c, s, id, s.calls[id]);
      || t.log == s.log + [SessionEnded(k)]
      || (&& t.sessions == s.sessions && t.clock == s.clock
          && (t.log == s.log || exists e :: t.log == s.log + [e] && e.Failed?)
          && (forall i :: i in t.calls && i != id ==> i in s.calls && t.calls[i] == s.calls[i])
          && (id in t.calls ==> t.calls[id].who.key == k && Harmless(c, t.clock, t.sessions[k], t.calls[id])))
  {
  }

  /** A step that moves no call of `k` leaves its calls alone; one begun now reads the present clock. */
  lemma OtherCallsKept(c: Config, s: Platform, a: Action, k: Key)
    requires !Moves(s, a, k)
    ensures var t := Step(c, s, a);
      && t.clock >= s.clock
      && (forall id :: id in t.calls && t.calls[id].who.key == k ==>
            (id in s.calls && t.calls[id] == s.calls[id])
            || (t.calls[id].stage.Begun? && t.calls[id].begun == s.clock))
  {
    if a.Advance? && a.id in s.calls && WellFormed(c, s.calls[a.id]) {
      var call := s.calls[a.id];
      hide FirstLock, SecondLock, Stamp, IssueGrant, WellFormed;
      match call.stage {
        case Begun => FirstLockEffect(c, s, a.id, call);
        case Checked(_) => CheckedIsApp(c, call); SecondLockEffect(s, a.id, call);
        case Cleared(_) => LaterEffect(c, s, a.id, call);
        case Stamped(_, _, _) => LaterEffect(c, s, a.id, call);
      }
    }
  }

  ghost predicate EndedSince(log: seq<Event>, from: nat, k: Key, until: nat) {
    exists j :: from <= j < until && j < |log| && log[j] == SessionEnded(k)
  }

  /** From position `from` on, everything that happens to `k` fails, until its session is revoked. */
  ghost predicate FailsUntilRevoked(log: seq<Event>, from: nat, k: Key) {
    forall i :: from <= i < |log| && log[i].key == k && !log[i].Failed? ==> EndedSince(log, from, k, i + 1)
  }

  lemma {:induction false} ExpiredStaysUnusable(c: Config, s: Platform, actions: seq<Action>, k: Key)
    requires Dead(c, s, k)
    ensures var t := Run(c, s, actions);
      && s.log <= t.log
      && FailsUntilRevoked(t.log, |s.log|, k)
      && (EndedSince(t.log, |s.log|, k, |t.log|) || (Dead(c, t, k) && t.sessions[k] == s.sessions[k]))
    decreases |actions|
  {
    if actions != [] {
      var m := Run(c, s, actions[..|actions| - 1]);
      var a := actions[|actions| - 1];
      ExpiredStaysUnusable(c, s, actions[..|actions| - 1], k);
      StepLog(c, m, a);
      if EndedSince(m.log, |s.log|, k, |m.log|) {
        hide Step, Dead;
        EndedStays(m.log, Step(c, m, a).log, |s.log|, k);
      } else {
        DeadStep(c, m, a, k);
        hide Step, Dead;
        DeadLog(m.log, Step(c, m, a).log, |s.log|, k);
      }
    }
  }

  lemma StepLog(c: Config, s: Platform, a: Action)
    ensures s.log <= Step(c, s, a).log && |Step(c, s, a).log| <= |s.log| + 1
  {
    if a.Advance? && a.id in s.calls {
      OwnEntryChange(c, s, a, s.calls[a.id].who.key);
      StepPrefix(c, s, a.id);
    }
    hide FirstLock, SecondLock, Stamp, IssueGrant, WellFormed;
  }

  lemma StepPrefix(c: Config, s: Platform, id: nat)
    requires id in s.calls
    ensures s.log <= Step(c, s, Advance(id)).log
  {
    var call := s.calls[id];
    if WellFormed(c, call) {
      hide FirstLock, SecondLock, Stamp, IssueGrant, WellFormed;
      match call.stage {
        case Begun => FirstLockEffect(c, s, id, call);
        case Checked(_) => CheckedIsApp(c, call); SecondLockEffect(s, id, call);
        case Cleared(_) => LaterEffect(c, s, id, call);
        case Stamped(_, _, _) => LaterEffect(c, s, id, call);
      }
    }
  }

  lemma EndedStays(log: seq<Event>, longer: seq<Event>, from: nat, k: Key)
    requires log <= longer && from <= |log| && FailsUntilRevoked(log, from, k) && EndedSince(log, from, k, |log|)
    ensures FailsUntilRevoked(longer, from, k) && EndedSince(longer, from, k, |longer|)
  {
    var j :| from <= j < |log| && log[j] == SessionEnded(k);
    assert longer[j] == SessionEnded(k);
    forall i | from <= i < |longer| && longer[i].key == k && !longer[i].Failed?
      ensures EndedSince(longer, from, k, i + 1)
    {
      if i < |log| {
        assert log[i] == longer[i];
        assert EndedSince(log, from, k, i + 1);
        var h :| from <= h < i + 1 && h < |log| && log[h] == SessionEnded(k);
        assert longer[h] == SessionEnded(k);
      } else {
        assert from <= j < i + 1;
      }
    }
  }

  lemma DeadLog(log: seq<Event>, longer: seq<Event>, from: nat, k: Key)
    requires from <= |log| && FailsUntilRevoked(log, from, k) && !EndedSince(log, from, k, |log|)
    requires longer == log + [SessionEnded(k)] || longer == log
             || exists e :: longer == log + [e] && (e.key != k || e.Failed?)
    ensures FailsUntilRevoked(longer, from, k)
    ensures longer == log + [SessionEnded(k)] ==> EndedSince(longer, from, k, |longer|)
  {
    if longer == log + [SessionEnded(k)] { assert longer[|log|] == SessionEnded(k); }
    forall i | from <= i < |log|
      ensures longer[i] == log[i] && (log[i].key == k ==> log[i].Failed?)
    {
      assert !EndedSince(log, from, k, i + 1);
    }
  }

  // ---------- A revoked app cannot refresh ----------

  /** A refresh that has not yet checked for revocation, or can no longer be granted. */
  predicate Stoppable(c: Config, clock: int, call: Call) {
    || !WellFormed(c, call) || call.stage.Begun? || call.stage.Checked?
    || (call.stage.Cleared? && Doomed(c, clock, call.stage.sessionExpiry))
  }

  /** `app` is revoked for `k`, and every refresh of it that is under way can still be stopped. */
  ghost predicate Barred(c: Config, s: Platform, k: Key, app: AppId) {
    && k in s.sessions && app in s.sessions[k].revoked
    && (forall id :: id in s.calls && s.calls[id].who.key == k && s.calls[id].op == RefreshApp(app) ==>
          Stoppable(c, s.clock, s.calls[id]))
  }

  /** What ends a revocation: re-authorization, or another session in place of this one. */
  predicate Lifts(e: Event, k: Key, app: AppId) {
    e == Reauthorized(k, app) || (e.SessionIssued? && e.key == k) || e == SessionEnded(k)
  }

  predicate IsRefreshGrant(e: Event, k: Key, app: AppId) {
    e.Granted? && e.key == k && e.op == RefreshApp(app)
  }

  lemma BarredStep(c: Config, s: Platform, a: Action, k: Key, app: AppId)
    requires Barred(c, s, k, app)
    ensures var t := Step(c, s, a);
      && (t.log != s.log ==> |t.log| == |s.log| + 1 && !IsRefreshGrant(t.log[|s.log|], k, app))
      && (Barred(c, t, k, app) || (t.log != s.log && Lifts(t.log[|s.log|], k, app)))
  {
    var t := Step(c, s, a);
    StepLog(c, s, a);
    if a.Advance? && a.id in s.calls && WellFormed(c, s.calls[a.id]) {
      var call := s.calls[a.id];
      hide FirstLock, SecondLock, Stamp, IssueGrant, WellFormed;
      match call.stage {
        case Begun => FirstLockEffect(c, s, a.id, call);
        case Checked(_) => CheckedIsApp(c, call); SecondLockEffect(s, a.id, call);
        case Cleared(_) => LaterEffect(c, s, a.id, call);
        case Stamped(_, _, _) => LaterEffect(c, s, a.id, call);
      }
    }
  }

  /** Every refresh grant of `app` after `from` comes after something that lifted the revocation. */
  ghost predicate NoRefreshUntilLifted(log: seq<Event>, from: nat, k: Key, app: AppId) {
    forall i :: from <= i < |log| && IsRefreshGrant(log[i], k, app) ==> LiftedSince(log, from, i, k, app)
  }

  ghost predicate LiftedSince(log: seq<Event>, from: nat, until: nat, k: Key, app: AppId) {
    exists j :: from <= j < until && j < |log| && Lifts(log[j], k, app)
  }

  lemma {:induction false} RevokedAppCannotRefresh(c: Config, s: Platform, actions: seq<Action>, k: Key, app: AppId)
    requires Barred(c, s, k, app)
    ensures var t := Run(c, s, actions);
      && s.log <= t.log
      && NoRefreshUntilLifted(t.log, |s.log|, k, app)
      && (LiftedSince(t.log, |s.log|, |t.log|, k, app) || Barred(c, t, k, app))
    decreases |actions|
  {
    if actions != [] {
      var m := Run(c, s, actions[..|actions| - 1]);
      var a := actions[|actions| - 1];
      RevokedAppCannotRefresh(c, s, actions[..|actions| - 1], k, app);
      StepLog(c, m, a);
      if !LiftedSince(m.log, |s.log|, |m.log|, k, app) { BarredStep(c, m, a, k, app); }
      hide Step, Barred;
      LiftedLog(m.log, Step(c, m, a).log, |s.log|, k, app);
    }
  }

  lemma LiftedLog(log: seq<Event>, longer: seq<Event>, from: nat, k: Key, app: AppId)
    requires from <= |log| && log <= longer && |longer| <= |log| + 1 && NoRefreshUntilLifted(log, from, k, app)
    requires longer != log && !LiftedSince(log, from, |log|, k, app) ==> !IsRefreshGrant(longer[|log|], k, app)
    ensures NoRefreshUntilLifted(longer, from, k, app)
    ensures LiftedSince(log, from, |log|, k, app) ==> LiftedSince(longer, from, |longer|, k, app)
    ensures longer != log && Lifts(longer[|log|], k, app) ==> LiftedSince(longer, from, |longer|, k, app)
  {
    assert forall i :: 0 <= i < |log| ==> longer[i] == log[i];
    forall i | from <= i < |longer| && IsRefreshGrant(longer[i], k, app)
      ensures LiftedSince(longer, from, i, k, app)
    {
      assert LiftedSince(log, from, if i < |log| then i else |log|, k, app);
      var j :| from <= j < i && j < |log| && Lifts(log[j], k, app);
      assert Lifts(longer[j], k, app);
    }
    if LiftedSince(log, from, |log|, k, app) {
      var j :| from <= j < |log| && Lifts(log[j], k, app);
      assert Lifts(longer[j], k, app);
    }
  }

  // ---------- Both conditions are exact ----------

  lemma RunOne(c: Config, s: Platform, a: Action)
    ensures Run(c, s, [a]) == Step(c, s, a)
  {
    assert [a][..0] == [];
  }

  lemma RunMore(c: Config, s: Platform, actions: seq<Action>, a: Action)
    ensures Run(c, s, actions + [a]) == Step(c, Run(c, s, actions), a)
  {
    assert (actions + [a])[..|actions|] == actions;
  }

  /** One more event, of identity `k`, that neither fails nor ends its session. */
  ghost predicate Acts(s: Platform, t: Platform, k: Key) {
    && |t.log| == |s.log| + 1 && t.log[..|s.log|] == s.log
    && t.log[|s.log|].key == k && !t.log[|s.log|].Failed? && !t.log[|s.log|].SessionEnded?
  }

  ghost predicate Refreshes(s: Platform, t: Platform, k: Key, app: AppId) {
    |t.log| == |s.log| + 1 && t.log[..|s.log|] == s.log && IsRefreshGrant(t.log[|s.log|], k, app)
  }

  lemma ActsBreaks(s: Platform, t: Platform, k: Key)
    requires Acts(s, t, k)
    ensures !FailsUntilRevoked(t.log, |s.log|, k)
  {
    assert !EndedSince(t.log, |s.log|, k, |s.log| + 1);
  }

  lemma RefreshesBreaks(s: Platform, t: Platform, k: Key, app: AppId)
    requires Refreshes(s, t, k, app)
    ensures !NoRefreshUntilLifted(t.log, |s.log|, k, app)
  {
    assert !LiftedSince(t.log, |s.log|, |s.log|, k, app);
  }

  lemma StampedGrants(c: Config, s: Platform, id: nat)
    requires Inv(c, s) && id in s.calls && s.calls[id].stage.Stamped?
    ensures var t := Step(c, s, Advance(id)); var call := s.calls[id];
      Acts(s, t, call.who.key) && t.log[|s.log|].Granted? && t.log[|s.log|].op == call.op
  {
  }

  lemma ClearedStamps(c: Config, s: Platform, id: nat)
    requires ValidConfig(c) && id in s.calls && WellFormed(c, s.calls[id])
    requires s.calls[id].stage.Cleared? && !Doomed(c, s.clock, s.calls[id].stage.sessionExpiry)
    ensures var t := Step(c, s, Advance(id));
      && t.log == s.log && id in t.calls && t.calls[id].stage.Stamped?
      && t.calls[id].op == s.calls[id].op && t.calls[id].who == s.calls[id].who
  {
  }

  lemma ClearedGrants(c: Config, s: Platform, id: nat) returns (actions: seq<Action>)
    requires ValidConfig(c) && Inv(c, s) && id in s.calls
    requires s.calls[id].stage.Cleared? && !Doomed(c, s.clock, s.calls[id].stage.sessionExpiry)
    ensures var t := Run(c, s, actions); var call := s.calls[id];
      Acts(s, t, call.who.key) && t.log[|s.log|].Granted? && t.log[|s.log|].op == call.op
  {
    hide Step;
    actions := [Advance(id)] + [Advance(id)];
    assert WellFormed(c, s.calls[id]);
    ClearedStamps(c, s, id);
    var m := Step(c, s, Advance(id));
    StepKeepsInv(c, s, Advance(id));
    StampedGrants(c, m, id);
    RunOne(c, s, Advance(id));
    RunMore(c, s, [Advance(id)], Advance(id));
  }

  /** A refresh past its check is granted by the next steps, revoked or not. */
  lemma UnstoppableRefreshes(c: Config, s: Platform, id: nat, app: AppId) returns (actions: seq<Action>)
    requires ValidConfig(c) && Inv(c, s) && id in s.calls && s.calls[id].op == RefreshApp(app)
    requires !Stoppable(c, s.clock, s.calls[id])
    ensures Refreshes(s, Run(c, s, actions), s.calls[id].who.key, app)
  {
    if s.calls[id].stage.Stamped? {
      actions := [Advance(id)];
      StampedGrants(c, s, id);
      RunOne(c, s, Advance(id));
    } else {
      actions := ClearedGrants(c, s, id);
    }
    hide *;
  }

  /**
    A revocation holds against every future of the platform exactly when no refresh of the
    app has got past its check and can still be granted.
   */
  lemma RevocationHoldsIff(c: Config, s: Platform, k: Key, app: AppId)
    requires ValidConfig(c) && Inv(c, s) && k in s.sessions && app in s.sessions[k].revoked
    ensures Barred(c, s, k, app)
            <==> forall actions :: NoRefreshUntilLifted(Run(c, s, actions).log, |s.log|, k, app)
  {
    hide Step, Inv, Stoppable, NoRefreshUntilLifted, Refreshes, Run;
    if Barred(c, s, k, app) {
      forall actions ensures NoRefreshUntilLifted(Run(c, s, actions).log, |s.log|, k, app) {
        RevokedAppCannotRefresh(c, s, actions, k, app);
      }
    } else {
      var id :| id in s.calls && s.calls[id].who.key == k && s.calls[id].op == RefreshApp(app)
                && !Stoppable(c, s.clock, s.calls[id]);
      var actions := UnstoppableRefreshes(c, s, id, app);
      RefreshesBreaks(s, Run(c, s, actions), k, app);
    }
  }

  /** A check that is not harmless is one step from acting on the session, or from a grant. */
  lemma CheckedActs(c: Config, s: Platform, id: nat) returns (actions: seq<Action>)
    requires ValidConfig(c) && Inv(c, s) && id in s.calls && s.calls[id].stage.Checked?
    requires s.calls[id].who.key in s.sessions
    requires !Harmless(c, s.clock, s.sessions[s.calls[id].who.key], s.calls[id])
    ensures Acts(s, Run(c, s, actions), s.calls[id].who.key)
  {
    RunOne(c, s, Advance(id));
    if !s.calls[id].op.RefreshApp? {
      actions := [Advance(id)];
      CheckedStep(c, s, id);
    } else {
      CheckedStep(c, s, id);
      StepKeepsInv(c, s, Advance(id));
      var m := Step(c, s, Advance(id));
      hide Step, Inv;
      var more := ClearedGrants(c, m, id);
      actions := [Advance(id)] + more;
      RunSplit(c, s, [Advance(id)], more);
    }
  }

  lemma CheckedStep(c: Config, s: Platform, id: nat)
    requires id in s.calls && s.calls[id].stage.Checked? && WellFormed(c, s.calls[id])
    requires s.calls[id].who.key in s.sessions
    ensures var call := s.calls[id]; var t := Step(c, s, Advance(id));
      && (!call.op.RefreshApp? ==> Acts(s, t, call.who.key))
      && (call.op.RefreshApp? && call.op.app !in s.sessions[call.who.key].revoked ==>
          t == Proceed(s, id, call, Cleared(call.stage.sessionExpiry)))
  {
  }

  lemma {:induction false} RunSplit(c: Config, s: Platform, first: seq<Action>, more: seq<Action>)
    ensures Run(c, s, first + more) == Run(c, Run(c, s, first), more)
  {
    if more == [] {
      assert first + more == first;
    } else {
      var n := |more| - 1;
      RunSplit(c, s, first, more[..n]);
      assert first + more == first + more[..n] + [more[n]];
      RunMore(c, s, first + more[..n], more[n]);
    }
  }

  /** A call with an early clock reading that is not harmless acts at its first lock, or at its second. */
  lemma BegunActs(c: Config, s: Platform, id: nat) returns (actions: seq<Action>)
    requires ValidConfig(c) && Inv(c, s) && id in s.calls && s.calls[id].stage.Begun?
    requires s.calls[id].who.key in s.sessions
    requires !Harmless(c, s.clock, s.sessions[s.calls[id].who.key], s.calls[id])
    ensures Acts(s, Run(c, s, actions), s.calls[id].who.key)
  {
    RunOne(c, s, Advance(id));
    BegunStep(c, s, id);
    actions := [Advance(id)];
    if s.calls[id].op.AuthorizeApp? || s.calls[id].op.RevokeApp? {
      var m := Step(c, s, Advance(id));
      StepKeepsInv(c, s, Advance(id));
      assert WellFormed(c, m.calls[id]);
      hide Step;
      CheckedStep(c, m, id);
      actions := [Advance(id)] + [Advance(id)];
      RunMore(c, s, [Advance(id)], Advance(id));
    }
  }

  lemma BegunStep(c: Config, s: Platform, id: nat)
    requires id in s.calls && s.calls[id].stage.Begun? && s.calls[id].who.key in s.sessions
    requires !Harmless(c, s.clock, s.sessions[s.calls[id].who.key], s.calls[id])
    ensures var call := s.calls[id]; var t := Step(c, s, Advance(id));
      if call.op.AuthorizeApp? || call.op.RevokeApp?
      then t == Proceed(s, id, call, Checked(s.sessions[call.who.key].expiresAt))
      else Acts(s, t, call.who.key)
  {
  }

  /**
    An expired session stays unusable in every future of the platform exactly when every
    call of its identity that is under way is harmless.
   */
  lemma ExpiryHoldsIff(c: Config, s: Platform, k: Key)
    requires ValidConfig(c) && Inv(c, s) && k in s.sessions && s.clock >= s.sessions[k].expiresAt
    ensures Dead(c, s, k) <==> forall actions :: FailsUntilRevoked(Run(c, s, actions).log, |s.log|, k)
  {
    hide Step, Inv, Harmless, FailsUntilRevoked, Acts, Run;
    if Dead(c, s, k) {
      forall actions ensures FailsUntilRevoked(Run(c, s, actions).log, |s.log|, k) {
        ExpiredStaysUnusable(c, s, actions, k);
      }
    } else {
      var id :| id in s.calls && s.calls[id].who.key == k && !Harmless(c, s.clock, s.sessions[k], s.calls[id]);
      var actions := HarmfulActs(c, s, id);
      ActsBreaks(s, Run(c, s, actions), k);
    }
  }

  lemma HarmfulActs(c: Config, s: Platform, id: nat) returns (actions: seq<Action>)
    requires ValidConfig(c) && Inv(c, s) && id in s.calls && s.calls[id].who.key in s.sessions
    requires !Harmless(c, s.clock, s.sessions[s.calls[id].who.key], s.calls[id])
    ensures Acts(s, Run(c, s, actions), s.calls[id].who.key)
  {
    hide Step, Inv, Acts, Run, WellFormed, HarmlessEarly;
    match s.calls[id].stage {
      case Begun => actions := BegunActs(c, s, id);
      case Checked(_) => actions := CheckedActs(c, s, id);
      case Cleared(_) => actions := ClearedGrants(c, s, id);
      case Stamped(_, _, _) =>
        actions := [Advance(id)];
        RunOne(c, s, Advance(id));
        StampedGrants(c, s, id);
    }
  }

  /** A clock read just before the expiry revives the session after it, with one generation more. */
  lemma StaleReadingRevives(c: Config, clock: int, who: Identity) returns (early: seq<Action>, late: seq<Action>)
    requires ValidConfig(c) && clock + 2 * c.sessionTtl <= I64_MAX
    ensures var m := Run(c, Initial(clock), early);
      who.key in m.sessions && m.clock >= m.sessions[who.key].expiresAt
    ensures var t := Run(c, Initial(clock), early + late);
      who.key in t.sessions && t.clock < t.sessions[who.key].expiresAt && t.sessions[who.key].generation == 1
  {
    var s0 := Initial(clock);
    var s1 := Step(c, s0, Begin(0, CurrentSession, who));
    var s2 := Step(c, s1, Advance(0));
    var s3 := Step(c, s2, Begin(1, RefreshSession, who));
    var s4 := Step(c, s3, Tick(c.sessionTtl));
    RunOne(c, s0, Begin(0, CurrentSession, who));
    RunMore(c, s0, [Begin(0, CurrentSession, who)], Advance(0));
    RunMore(c, s0, [Begin(0, CurrentSession, who)] + [Advance(0)], Begin(1, RefreshSession, who));
    early := [Begin(0, CurrentSession, who)] + [Advance(0)] + [Begin(1, RefreshSession, who)] + [Tick(c.sessionTtl)];
    RunMore(c, s0, [Begin(0, CurrentSession, who)] + [Advance(0)] + [Begin(1, RefreshSession, who)], Tick(c.sessionTtl));
    late := [Advance(1)];
    RunMore(c, s0, early, Advance(1));
  }

  lemma RunThree(c: Config, s: Platform, x: Action, y: Action, z: Action)
    ensures Run(c, s, [x, y, z]) == Step(c, Step(c, Step(c, s, x), y), z)
  {
    hide Step;
    RunOne(c, s, x);
    RunMore(c, s, [x], y);
    RunMore(c, s, [x] + [y], z);
    assert [x] + [y] + [z] == [x, y, z];
  }

  /** The first two locks of an app call, from a state in which its checks pass. */
  lemma TwoLocks(c: Config, s: Platform, id: nat, op: Operation, who: Identity) returns (actions: seq<Action>)
    requires id !in s.calls && who.key in s.sessions && s.clock < s.sessions[who.key].expiresAt
    requires (op.RefreshApp? || op.RevokeApp?) && AppFailure(c, who, op.app).None?
    requires op.app !in s.sessions[who.key].revoked
    ensures var session := s.sessions[who.key];
      Run(c, s, actions) ==
      if op.RefreshApp? then s.(calls := s.calls[id := Call(op, who, s.clock, Cleared(session.expiresAt))])
      else s.(sessions := s.sessions[who.key := session.(revoked := session.revoked + {op.app})],
              log := s.log + [AppRevoked(who.key, op.app)])
  {
    actions := [Begin(id, op, who), Advance(id), Advance(id)];
    RunThree(c, s, Begin(id, op, who), Advance(id), Advance(id));
    hide Run;
    var s1 := Step(c, s, Begin(id, op, who));
    var s2 := Step(c, s1, Advance(id));
    assert s2 == Proceed(s1, id, s1.calls[id], Checked(s.sessions[who.key].expiresAt));
    var s3 := Step(c, s2, Advance(id));
    if op.RefreshApp? {
      assert s3.calls == s.calls[id := Call(op, who, s.clock, Cleared(s.sessions[who.key].expiresAt))];
    } else {
      assert s3.calls == s.calls;
    }
  }

  /** A refresh that cleared its check is granted although the app is revoked before it ends. */
  lemma LateRevocationMissed(c: Config, s: Platform, who: Identity, app: AppId) returns (actions: seq<Action>)
    requires ValidConfig(c) && Inv(c, s) && s.calls == map[]
    requires who.key in s.sessions && !Doomed(c, s.clock, s.sessions[who.key].expiresAt)
    requires AppFailure(c, who, app).None? && app !in s.sessions[who.key].revoked
    ensures var t := Run(c, s, actions);
      && |t.log| == |s.log| + 2
      && t.log[|s.log|] == AppRevoked(who.key, app) && IsRefreshGrant(t.log[|s.log| + 1], who.key, app)
  {
    hide Step, Run, WellFormed, AppFailure;
    var first := TwoLocks(c, s, 1, RefreshApp(app), who);
    var m := Run(c, s, first);
    var second := TwoLocks(c, m, 2, RevokeApp(app), who);
    var n := Run(c, m, second);
    RunSplit(c, s, first, second);
    FromKeepsInv(c, s, first + second);
    var third := ClearedGrants(c, n, 1);
    RunSplit(c, s, first + second, third);
    actions := first + second + third;
  }

  // ---------- The session behind a call was live during it ----------

  /** The latest clock that a call can have seen: its own grant's, once that is stamped. */
  function LastSeen(now: int, call: Call): int {
    if call.stage.Stamped? then call.stage.issuedAt else now
  }

  /** In some state of the run the call was waiting at its first lock and the session it used was stored. */
  ghost predicate WasLive(c: Config, s: Platform, actions: seq<Action>, id: nat, call: Call)
    requires !call.stage.Begun?
  {
    exists n :: 0 <= n <= |actions| &&
      var t := Run(c, s, actions[..n]);
      && id in t.calls && t.calls[id] == call.(stage := Begun)
      && call.who.key in t.sessions && t.sessions[call.who.key].expiresAt == call.stage.sessionExpiry
      && t.clock <= LastSeen(Run(c, s, actions).clock, call)
  }

  lemma CallStep(c: Config, s: Platform, a: Action, id: nat)
    requires id in Step(c, s, a).calls && !Step(c, s, a).calls[id].stage.Begun?
    ensures var call := Step(c, s, a).calls[id];
      && id in s.calls && s.calls[id].op == call.op && s.calls[id].who == call.who && s.calls[id].begun == call.begun
      && (s.calls[id].stage.Begun? ==> call.who.key in s.sessions && s.sessions[call.who.key].expiresAt == call.stage.sessionExpiry)
      && (!s.calls[id].stage.Begun? ==> s.calls[id].stage.sessionExpiry == call.stage.sessionExpiry)
      && LastSeen(s.clock, s.calls[id]) <= LastSeen(Step(c, s, a).clock, call)
  {
    if a.Advance? && a.id == id && id in s.calls && s.calls[id].stage.Begun? {
      FirstLockEffect(c, s, id, s.calls[id]);
    }
    hide FirstLock;
    if a.Advance? && a.id != id && a.id in s.calls && s.calls[a.id].stage.Begun? {
      FirstLockCalls(c, s, a.id, id);
    }
  }

  lemma FirstLockCalls(c: Config, s: Platform, id: nat, other: nat)
    requires id in s.calls && id != other
    ensures var t := FirstLock(c, s, id, s.calls[id]);
      && t.clock == s.clock
      && (other in t.calls <==> other in s.calls) && (other in t.calls ==> t.calls[other] == s.calls[other])
  {
    FirstLockEffect(c, s, id, s.calls[id]);
    hide FirstLock;
  }

  lemma {:induction false} SessionBehindCallWasLive(c: Config, clock: int, actions: seq<Action>, id: nat)
    requires var t := Run(c, Initial(clock), actions); id in t.calls && !t.calls[id].stage.Begun?
    ensures WasLive(c, Initial(clock), actions, id, Run(c, Initial(clock), actions).calls[id])
    decreases |actions|
  {
    if actions != [] {
      var n := |actions| - 1;
      var m := Run(c, Initial(clock), actions[..n]);
      var call := Step(c, m, actions[n]).calls[id];
      CallStep(c, m, actions[n], id);
      hide Step;
      if m.calls[id].stage.Begun? {
        assert m.calls[id] == call.(stage := Begun);
      } else {
        SessionBehindCallWasLive(c, clock, actions[..n], id);
        var i :| 0 <= i <= n &&
          var t := Run(c, Initial(clock), actions[..n][..i]);
          && id in t.calls && t.calls[id] == m.calls[id].(stage := Begun)
          && call.who.key in t.sessions && t.sessions[call.who.key].expiresAt == call.stage.sessionExpiry
          && t.clock <= LastSeen(m.clock, m.calls[id]);
        assert actions[..n][..i] == actions[..i];
      }
    }
  }

  /** Some call under way stood behind the grant, and the session that bounds it was stored and live by then. */
  ghost predicate Backed(c: Config, s: Platform, actions: seq<Action>, g: Grant) {
    exists n, id :: 0 <= n <= |actions| && BackedAt(Run(c, s, actions[..n]), id, g)
  }

  ghost predicate BackedAt(t: Platform, id: nat, g: Grant) {
    && id in t.calls && t.calls[id].who == g.who && t.calls[id].begun == g.begun && t.calls[id].stage.Begun?
    && g.who.key in t.sessions && t.sessions[g.who.key].expiresAt == g.sessionExpiry
    && g.begun < g.sessionExpiry && t.clock < t.sessions[g.who.key].expiresAt
  }

  lemma BackedLater(c: Config, s: Platform, actions: seq<Action>, n: nat, g: Grant)
    requires n <= |actions| && Backed(c, s, actions[..n], g)
    ensures Backed(c, s, actions, g)
  {
    var i, id :| 0 <= i <= n && BackedAt(Run(c, s, actions[..n][..i]), id, g);
    assert actions[..n][..i] == actions[..i];
  }

  /** A step grants only by issuing from a stamped call. */
  lemma GrantStep(c: Config, s: Platform, a: Action)
    requires Inv(c, s) && Step(c, s, a).log != s.log
    ensures var t := Step(c, s, a); |t.log| == |s.log| + 1 && t.log[..|s.log|] == s.log
    ensures var e := Step(c, s, a).log[|s.log|];
      e.Granted? ==> a.Advance? && a.id in s.calls && s.calls[a.id].stage.Stamped?
                     && e.grant.who == s.calls[a.id].who && e.grant.begun == s.calls[a.id].begun
                     && e.grant.sessionExpiry == s.calls[a.id].stage.sessionExpiry > e.grant.begun
                     && s.calls[a.id].stage.issuedAt < e.grant.sessionExpiry
  {
    StepLog(c, s, a);
    if a.Advance? && a.id in s.calls && s.calls[a.id].stage.Checked? {
      CheckedIsApp(c, s.calls[a.id]);
      SecondLockEffect(s, a.id, s.calls[a.id]);
    }
    if a.Advance? && a.id in s.calls && s.calls[a.id].stage.Begun? {
      FirstLockEffect(c, s, a.id, s.calls[a.id]);
    }
    hide FirstLock, SecondLock;
  }

  /** Every grant of every run is bounded by a session that was live while its call was under way. */
  lemma {:induction false} GrantBackedBySession(c: Config, clock: int, actions: seq<Action>, i: nat)
    requires ValidConfig(c) && i < |Run(c, Initial(clock), actions).log|
    requires Run(c, Initial(clock), actions).log[i].Granted?
    ensures Backed(c, Initial(clock), actions, Run(c, Initial(clock), actions).log[i].grant)
    decreases |actions|
  {
    hide Step, Inv, Backed, WasLive;
    var s := Initial(clock);
    if actions != [] {
      var n := |actions| - 1;
      var m := Run(c, s, actions[..n]);
      StepLog(c, m, actions[n]);
      if i < |m.log| {
        GrantBackedBySession(c, clock, actions[..n], i);
      } else {
        RunKeepsInv(c, clock, actions[..n]);
        GrantStep(c, m, actions[n]);
        SessionBehindCallWasLive(c, clock, actions[..n], actions[n].id);
        LiveBacks(c, s, actions[..n], actions[n].id, m.calls[actions[n].id], Run(c, s, actions).log[i].grant);
      }
      BackedLater(c, s, actions, n, Run(c, s, actions).log[i].grant);
    }
  }

  lemma LiveBacks(c: Config, s: Platform, actions: seq<Action>, id: nat, call: Call, g: Grant)
    requires call.stage.Stamped? && WasLive(c, s, actions, id, call) && call.stage.issuedAt < g.sessionExpiry
    requires g.who == call.who && g.begun == call.begun && g.sessionExpiry == call.stage.sessionExpiry > g.begun
    ensures Backed(c, s, actions, g)
  {
    hide Run;
    var n :| 0 <= n <= |actions| &&
      var t := Run(c, s, actions[..n]);
      && id in t.calls && t.calls[id] == call.(stage := Begun)
      && call.who.key in t.sessions && t.sessions[call.who.key].expiresAt == call.stage.sessionExpiry
      && t.clock <= LastSeen(Run(c, s, actions).clock, call);
    assert BackedAt(Run(c, s, actions[..n]), id, g);
  }

  // ---------- The object itself ----------

  /** A call that nothing interrupts: begun now, its later clock readings `delay` seconds on. */
  function Alone(c: Config, s: Platform, op: Operation, who: Identity, delay: nat): Platform {
    var begun := Step(c, Step(c, s, Begin(0, op, who)), Tick(delay));
    Step(c, Step(c, Step(c, Step(c, begun, Advance(0)), Advance(0)), Advance(0)), Advance(0))
  }

  /** What issue_grant reports, from one clock reading and the session expiry it was handed. */
  function GrantEvent(c: Config, op: Operation, who: Identity, begun: int, clock: int,
                      sessionExpiry: int, counter: nat): Event
    requires (op.AuthorizeApp? || op.RefreshApp?) && op.app in c.apps
  {
    var policyExpiry := clock + c.grantTtl;
    var expiresAt := if policyExpiry < sessionExpiry then policyExpiry else sessionExpiry;
    if policyExpiry > I64_MAX then Failed(who.key, Internal)
    else if expiresAt <= clock then Failed(who.key, Expired)
    else Granted(who.key, op, Grant(counter % U64_COUNT, who, op.app, c.apps[op.app].grantScopes * who.scopes,
                                    clock, expiresAt, sessionExpiry, begun))
  }

  /** A cleared call that nothing interrupts ends with that event, and touches nothing else. */
  lemma GrantTail(c: Config, s: Platform, call: Call)
    requires s.calls == map[0 := call] && call.stage.Cleared? && WellFormed(c, call)
    ensures call.op.app in c.apps
    ensures var t := Step(c, Step(c, s, Advance(0)), Advance(0));
      var e := GrantEvent(c, call.op, call.who, call.begun, s.clock, call.stage.sessionExpiry, s.counter);
      && t.sessions == s.sessions && t.calls == map[] && t.log == s.log + [e]
      && t.counter == if e.Granted? then s.counter + 1 else s.counter
  {
  }

  /** The first two locks of an uninterrupted app call that passes its checks. */
  lemma AppLocks(c: Config, s: Platform, op: Operation, who: Identity, delay: nat)
    requires s.calls == map[] && (op.AuthorizeApp? || op.RefreshApp?)
    requires who.key in s.sessions && s.clock < s.sessions[who.key].expiresAt
    requires AppFailure(c, who, op.app).None? && (op.RefreshApp? ==> op.app !in s.sessions[who.key].revoked)
    ensures var begun := Step(c, Step(c, s, Begin(0, op, who)), Tick(delay));
      var t := Step(c, Step(c, begun, Advance(0)), Advance(0));
      var session := s.sessions[who.key];
      && t.clock == s.clock + delay && t.counter == s.counter
      && t.calls == map[0 := Call(op, who, s.clock, Cleared(session.expiresAt))]
      && t.sessions == (if op.AuthorizeApp? then s.sessions[who.key := session.(revoked := session.revoked - {op.app})]
                        else s.sessions)
  {
  }

  lemma UninterruptedGrant(c: Config, s: Platform, op: Operation, who: Identity, delay: nat)
    requires s.calls == map[] && (op.AuthorizeApp? || op.RefreshApp?)
    requires who.key in s.sessions && s.clock < s.sessions[who.key].expiresAt
    requires AppFailure(c, who, op.app).None? && (op.RefreshApp? ==> op.app !in s.sessions[who.key].revoked)
    ensures op.app in c.apps
    ensures var t := Alone(c, s, op, who, delay);
      var session := s.sessions[who.key];
      var e := GrantEvent(c, op, who, s.clock, s.clock + delay, session.expiresAt, s.counter);
      && t.sessions == (if op.AuthorizeApp? then s.sessions[who.key := session.(revoked := session.revoked - {op.app})]
                        else s.sessions)
      && t.calls == map[] && t.log != [] && t.log[|t.log| - 1] == e
      && t.counter == if e.Granted? then s.counter + 1 else s.counter
  {
    hide Step, GrantEvent;
    AppLocks(c, s, op, who, delay);
    var begun := Step(c, Step(c, s, Begin(0, op, who)), Tick(delay));
    var t := Step(c, Step(c, begun, Advance(0)), Advance(0));
    GrantTail(c, t, t.calls[0]);
  }

  /** Why an app call of an identity is turned away, if it is. */
  function Refusal(c: Config, sessions: map<Key, Session>, op: Operation, who: Identity, now: int): Option<Failure>
    requires op.AuthorizeApp? || op.RefreshApp? || op.RevokeApp?
  {
    if who.key !in sessions then Some(Unauthenticated)
    else if now >= sessions[who.key].expiresAt then Some(Expired)
    else if AppFailure(c, who, op.app).Some? then AppFailure(c, who, op.app)
    else if op.RefreshApp? && op.app in sessions[who.key].revoked then Some(Expired)
    else None
  }

  lemma RefusedAtSecondLock(c: Config, s: Platform, op: Operation, who: Identity)
    requires s.calls.Keys == {0} && op.RefreshApp? && AppFailure(c, who, op.app).None?
    requires s.calls[0].op == op && s.calls[0].who == who && s.calls[0].stage.Checked?
    requires who.key in s.sessions && op.app in s.sessions[who.key].revoked
    ensures Step(c, s, Advance(0)) == s.(calls := map[], log := s.log + [Failed(who.key, Expired)])
  {
  }

  lemma FirstLockAlone(c: Config, s: Platform, op: Operation, who: Identity, delay: nat)
    requires s.calls == map[] && (op.AuthorizeApp? || op.RefreshApp? || op.RevokeApp?)
    ensures var begun := Step(c, Step(c, s, Begin(0, op, who)), Tick(delay));
      var t := Step(c, begun, Advance(0));
      if who.key in s.sessions && s.clock < s.sessions[who.key].expiresAt && AppFailure(c, who, op.app).None?
      then t == begun.(calls := map[0 := Call(op, who, s.clock, Checked(s.sessions[who.key].expiresAt))])
           && begun == s.(clock := s.clock + delay, calls := begun.calls)
      else t == s.(clock := s.clock + delay, log := s.log + [Failed(who.key, Refusal(c, s.sessions, op, who, s.clock).value)])
  {
    var begun := Step(c, Step(c, s, Begin(0, op, who)), Tick(delay));
    assert begun.calls - {0} == map[];
  }

  lemma NothingToAdvance(c: Config, s: Platform)
    requires s.calls == map[]
    ensures Step(c, s, Advance(0)) == s
  {
  }

  lemma UninterruptedRefusal(c: Config, s: Platform, op: Operation, who: Identity, delay: nat)
    requires s.calls == map[] && (op.AuthorizeApp? || op.RefreshApp? || op.RevokeApp?)
    requires Refusal(c, s.sessions, op, who, s.clock).Some?
    ensures Alone(c, s, op, who, delay)
         == s.(clock := s.clock + delay, log := s.log + [Failed(who.key, Refusal(c, s.sessions, op, who, s.clock).value)])
  {
    hide Step, AppFailure;
    FirstLockAlone(c, s, op, who, delay);
    var t := Step(c, Step(c, Step(c, s, Begin(0, op, who)), Tick(delay)), Advance(0));
    if 0 in t.calls {
      RefusedAtSecondLock(c, t, op, who);
      NothingToAdvance(c, Step(c, t, Advance(0)));
    } else {
      NothingToAdvance(c, t);
    }
  }

  lemma RevokedAtSecondLock(c: Config, s: Platform, op: Operation, who: Identity)
    requires s.calls.Keys == {0} && op.RevokeApp? && AppFailure(c, who, op.app).None?
    requires s.calls[0].op == op && s.calls[0].who == who && s.calls[0].stage.Checked? && who.key in s.sessions
    ensures var session := s.sessions[who.key];
      Step(c, s, Advance(0)) ==
      s.(sessions := s.sessions[who.key := session.(revoked := session.revoked + {op.app})],
         calls := map[], log := s.log + [AppRevoked(who.key, op.app)])
  {
  }

  /** An uninterrupted revocation adds one app to one session, and nothing else. */
  lemma UninterruptedRevocation(c: Config, s: Platform, op: Operation, who: Identity, delay: nat)
    requires s.calls == map[] && op.RevokeApp? && Refusal(c, s.sessions, op, who, s.clock).None?
    ensures var session := s.sessions[who.key];
      Alone(c, s, op, who, delay) ==
      s.(clock := s.clock + delay, log := s.log + [AppRevoked(who.key, op.app)],
         sessions := s.sessions[who.key := session.(revoked := session.revoked + {op.app})])
  {
    hide Step, AppFailure;
    FirstLockAlone(c, s, op, who, delay);
    var t := Step(c, Step(c, Step(c, s, Begin(0, op, who)), Tick(delay)), Advance(0));
    RevokedAtSecondLock(c, t, op, who);
    NothingToAdvance(c, Step(c, t, Advance(0)));
  }

  // ---------- Who gets what, in terms of the configuration ----------

  /** The identity has a session that has not expired. */
  predicate Live(sessions: map<Key, Session>, who: Identity, now: int) {
    who.key in sessions && now < sessions[who.key].expiresAt
  }

  /**
    The answer to an authorization or refresh begun at `now` whose grant is stamped at `later`:
    a grant exactly for an entitled caller with time left, and each failure with its cause.
   */
  ghost predicate GrantAnswer(c: Config, sessions: map<Key, Session>, op: Operation, who: Identity,
                              now: int, later: int, counter: nat, e: Event)
    requires op.AuthorizeApp? || op.RefreshApp?
  {
    var app, key := op.app, who.key;
    var live := Live(sessions, who, now);
    var registered := app != "" && app in c.apps;
    var entitled := live && registered && who.subject in c.apps[app].allowedSubjects;
    var open := entitled && (op.RefreshApp? ==> app !in sessions[key].revoked);
    var fits := later + c.grantTtl <= 0x7FFF_FFFF_FFFF_FFFF;
    && e.key == key
    && (e.Granted? <==> open && fits && later < sessions[key].expiresAt)
    && (e.Granted? ==>
          && e.op == op && e.grant.who == who && e.grant.app == app && e.grant.issuedAt == later
          && e.grant.scopes == c.apps[app].grantScopes * who.scopes
          && e.grant.expiresAt <= later + c.grantTtl && e.grant.expiresAt <= sessions[key].expiresAt
          && (e.grant.expiresAt == later + c.grantTtl || e.grant.expiresAt == sessions[key].expiresAt)
          && e.grant.sequence == counter % 0x1_0000_0000_0000_0000)
    && (e == Failed(key, Unauthenticated) <==> key !in sessions)
    && (e == Failed(key, InvalidRequest) <==> live && app == "")
    && (e == Failed(key, NotFound) <==> live && app != "" && app !in c.apps)
    && (e == Failed(key, Forbidden) <==> live && registered && !entitled)
    && (e == Failed(key, Internal) <==> open && !fits)
    && (e == Failed(key, Expired) <==>
          || (key in sessions && !live) || (entitled && !open)
          || (open && fits && later >= sessions[key].expiresAt))
  }

  /** An uninterrupted authorization or refresh gives that answer. */
  lemma UninterruptedAnswer(c: Config, s: Platform, op: Operation, who: Identity, delay: nat)
    requires ValidConfig(c) && s.calls == map[] && (op.AuthorizeApp? || op.RefreshApp?)
    ensures var t := Alone(c, s, op, who, delay);
      t.log != [] && GrantAnswer(c, s.sessions, op, who, s.clock, s.clock + delay, s.counter, t.log[|t.log| - 1])
  {
    hide Step, Alone;
    if Refusal(c, s.sessions, op, who, s.clock).Some? {
      UninterruptedRefusal(c, s, op, who, delay);
    } else {
      UninterruptedGrant(c, s, op, who, delay);
    }
  }

  /** The answer to a revocation: done exactly for an entitled caller, and each failure with its cause. */
  ghost predicate RevokeAnswer(c: Config, sessions: map<Key, Session>, app: AppId, who: Identity, now: int, e: Event) {
    var live := Live(sessions, who, now);
    var entitled := live && app != "" && app in c.apps && who.subject in c.apps[app].allowedSubjects;
    && (e == AppRevoked(who.key, app) <==> entitled)
    && (e == Failed(who.key, Unauthenticated) <==> who.key !in sessions)
    && (e == Failed(who.key, Expired) <==> who.key in sessions && !live)
    && (e == Failed(who.key, InvalidRequest) <==> live && app == "")
    && (e == Failed(who.key, NotFound) <==> live && app != "" && app !in c.apps)
    && (e == Failed(who.key, Forbidden) <==> live && app != "" && app in c.apps && !entitled)
  }

  lemma UninterruptedRevokeAnswer(c: Config, s: Platform, app: AppId, who: Identity, delay: nat)
    requires s.calls == map[]
    ensures var t := Alone(c, s, RevokeApp(app), who, delay);
      t.log != [] && RevokeAnswer(c, s.sessions, app, who, s.clock, t.log[|t.log| - 1])
  {
    hide Step, Alone;
    if Refusal(c, s.sessions, RevokeApp(app), who, s.clock).Some? {
      UninterruptedRefusal(c, s, RevokeApp(app), who, delay);
    } else {
      UninterruptedRevocation(c, s, RevokeApp(app), who, delay);
    }
  }

  /** The stored session after a call to create or refresh one, and the answer. */
  ghost predicate SessionAnswer(c: Config, before: map<Key, Session>, after: map<Key, Session>, refresh: bool,
                                who: Identity, now: int, later: int, e: Event) {
    var key := who.key;
    var due := if refresh then Live(before, who, now) && before[key].generation + 1 < 0x1_0000_0000_0000_0000
               else key !in before;
    if due && later + c.sessionTtl <= 0x7FFF_FFFF_FFFF_FFFF then
      && e.SessionIssued? && e.key == key && after == before[key := e.session]
      && e.session.issuedAt == later && e.session.expiresAt == later + c.sessionTtl && e.session.revoked == {}
      && e.session.generation == (if refresh then before[key].generation + 1 else 0)
    else
      && after == before
      && (e == Failed(key, Unauthenticated) <==> refresh && key !in before)
      && (e == Failed(key, Expired) <==> key in before && !Live(before, who, now))
      && (e == SessionReturned(key) <==> !refresh && Live(before, who, now))
      && (e == Failed(key, Internal) <==> if refresh then Live(before, who, now) else key !in before)
  }

  /**
    The application object. Its methods are whole calls with no other call in between; each
    leaves exactly the state that the schedule `Alone` of the state machine reaches, and
    returns the last event of that schedule.
   */
  class PlatformApplication {
    const config: Config
    var sessions: map<Key, Session>
    var grantSequence: nat

    /** What every call keeps, as the clock moves on: good sessions only, and a counter within 64 bits. */
    ghost predicate Valid(clock: int)
      reads this
    {
      && ValidConfig(config) && grantSequence < U64_COUNT
      && (forall k :: k in sessions ==> GoodSession(config, sessions[k], clock))
    }

    /** A grant that keeps every promise and carries the next sequence number. */
    ghost predicate Issued(e: Event, sequence: nat)
      reads this
    {
      e.Granted? ==> GoodGrant(config, e.grant) && e.grant.sequence == sequence
    }

    constructor (config: Config)
      requires ValidConfig(config)
      ensures this.config == config && sessions == map[] && grantSequence == 0
      ensures forall clock :: Valid(clock)
    {
      this.config := config;
      sessions := map[];
      grantSequence := 0;
    }

    ghost function Snapshot(clock: int): Platform
      reads this
    {
      Platform(clock, sessions, grantSequence, map[], [])
    }

    /** The object agrees with a state the machine reached, and `e` is what the call reported. */
    ghost predicate Reports(t: Platform, e: Event)
      reads this
    {
      && sessions == t.sessions && grantSequence == t.counter % U64_COUNT
      && t.log != [] && e == t.log[|t.log| - 1] && t.calls == map[]
    }

    method CurrentSession(who: Identity, now: int, delay: nat) returns (e: Event)
      requires Valid(now)
      modifies this`sessions
      ensures Valid(now + delay)
      ensures Reports(Alone(config, old(Snapshot(now)), Operation.CurrentSession, who, delay), e)
      ensures SessionAnswer(config, old(sessions), sessions, false, who, now, now + delay, e)
    {
      if who.key in sessions {
        e := if now >= sessions[who.key].expiresAt then Failed(who.key, Expired) else SessionReturned(who.key);
      } else {
        e := Issue(who, now + delay, 0);
      }
    }

    method RefreshSession(who: Identity, now: int, delay: nat) returns (e: Event)
      requires Valid(now)
      modifies this`sessions
      ensures Valid(now + delay)
      ensures Reports(Alone(config, old(Snapshot(now)), Operation.RefreshSession, who, delay), e)
      ensures SessionAnswer(config, old(sessions), sessions, true, who, now, now + delay, e)
    {
      if who.key !in sessions { return Failed(who.key, Unauthenticated); }
      var current := sessions[who.key];
      if now >= current.expiresAt { return Failed(who.key, Expired); }
      if current.generation + 1 >= U64_COUNT { return Failed(who.key, Internal); }
      e := Issue(who, now + delay, current.generation + 1);
    }

    method Issue(who: Identity, clock: int, generation: nat) returns (e: Event)
      requires Valid(clock) && generation < U64_COUNT
      modifies this`sessions
      ensures Valid(clock)
      ensures match NewSession(config, clock, generation)
              case None => sessions == old(sessions) && e == Failed(who.key, Internal)
              case Some(t) => sessions == old(sessions)[who.key := t] && e == SessionIssued(who.key, t)
    {
      var created := NewSession(config, clock, generation);
      if created.None? { return Failed(who.key, Internal); }
      sessions := sessions[who.key := created.value];
      return SessionIssued(who.key, created.value);
    }

    method RevokeSession(who: Identity, now: int, delay: nat) returns (e: Event)
      requires Valid(now)
      modifies this`sessions
      ensures Valid(now + delay)
      ensures Reports(Alone(config, old(Snapshot(now)), Operation.RevokeSession, who, delay), e)
      ensures sessions == map k | k in old(sessions) && k != who.key :: old(sessions)[k]
      ensures e == if who.key in old(sessions) then SessionEnded(who.key) else Failed(who.key, Unauthenticated)
    {
      if who.key !in sessions { return Failed(who.key, Unauthenticated); }
      sessions := sessions - {who.key};
      return SessionEnded(who.key);
    }

    /** active_session and app_for_subject: the failure, if there is one. */
    method Check(who: Identity, app: AppId, now: int) returns (f: Option<Failure>)
      ensures f.None? <==> who.key in sessions && now < sessions[who.key].expiresAt && AppFailure(config, who, app).None?
      ensures f.Some? ==>
        f.value == (if who.key !in sessions then Unauthenticated
                    else if now >= sessions[who.key].expiresAt then Expired
                    else AppFailure(config, who, app).value)
    {
      if who.key !in sessions { return Some(Unauthenticated); }
      if now >= sessions[who.key].expiresAt { return Some(Expired); }
      return AppFailure(config, who, app);
    }

    /** issue_grant. */
    method GrantApp(op: Operation, who: Identity, now: int, clock: int, sessionExpiry: int) returns (e: Event)
      requires (op.AuthorizeApp? || op.RefreshApp?) && AppFailure(config, who, op.app).None?
      requires Valid(clock) && now <= clock && now < sessionExpiry
      modifies this`grantSequence
      ensures Valid(clock) && Issued(e, old(grantSequence))
      ensures e == GrantEvent(config, op, who, now, clock, sessionExpiry, old(grantSequence))
      ensures grantSequence == (if e.Granted? then old(grantSequence) + 1 else old(grantSequence)) % U64_COUNT
    {
      if clock + config.grantTtl > I64_MAX { return Failed(who.key, Internal); }
      var policyExpiry := clock + config.grantTtl;
      var expiresAt := if policyExpiry < sessionExpiry then policyExpiry else sessionExpiry;
      if expiresAt <= clock { return Failed(who.key, Expired); }
      var sequence := grantSequence;
      grantSequence := (grantSequence + 1) % U64_COUNT;
      return Granted(who.key, op, Grant(sequence, who, op.app,
        config.apps[op.app].grantScopes * who.scopes, clock, expiresAt, sessionExpiry, now));
    }

    method AuthorizeApp(who: Identity, app: AppId, now: int, delay: nat) returns (e: Event)
      requires Valid(now)
      modifies this
      ensures Valid(now + delay) && Issued(e, old(grantSequence))
      ensures Reports(Alone(config, old(Snapshot(now)), Operation.AuthorizeApp(app), who, delay), e)
      ensures GrantAnswer(config, old(sessions), Operation.AuthorizeApp(app), who, now, now + delay, old(grantSequence), e)
    {
      hide Step, Alone, GrantEvent, AppFailure, GrantAnswer, ValidConfig;
      UninterruptedAnswer(config, Snapshot(now), Operation.AuthorizeApp(app), who, delay);
      var failure := Check(who, app, now);
      if failure.Some? {
        UninterruptedRefusal(config, Snapshot(now), Operation.AuthorizeApp(app), who, delay);
        return Failed(who.key, failure.value);
      }
      var session := sessions[who.key];
      UninterruptedGrant(config, Snapshot(now), Operation.AuthorizeApp(app), who, delay);
      sessions := sessions[who.key := session.(revoked := session.revoked - {app})];
      e := GrantApp(Operation.AuthorizeApp(app), who, now, now + delay, session.expiresAt);
    }

    method RefreshApp(who: Identity, app: AppId, now: int, delay: nat) returns (e: Event)
      requires Valid(now)
      modifies this
      ensures Valid(now + delay) && Issued(e, old(grantSequence))
      ensures Reports(Alone(config, old(Snapshot(now)), Operation.RefreshApp(app), who, delay), e)
      ensures GrantAnswer(config, old(sessions), Operation.RefreshApp(app), who, now, now + delay, old(grantSequence), e)
    {
      hide Step, Alone, GrantEvent, AppFailure, GrantAnswer, ValidConfig;
      UninterruptedAnswer(config, Snapshot(now), Operation.RefreshApp(app), who, delay);
      var failure := Check(who, app, now);
      if failure.Some? {
        UninterruptedRefusal(config, Snapshot(now), Operation.RefreshApp(app), who, delay);
        return Failed(who.key, failure.value);
      }
      if app in sessions[who.key].revoked {
        UninterruptedRefusal(config, Snapshot(now), Operation.RefreshApp(app), who, delay);
        return Failed(who.key, Expired);
      }
      UninterruptedGrant(config, Snapshot(now), Operation.RefreshApp(app), who, delay);
      e := GrantApp(Operation.RefreshApp(app), who, now, now + delay, sessions[who.key].expiresAt);
    }

    method RevokeApp(who: Identity, app: AppId, now: int, delay: nat) returns (e: Event)
      requires Valid(now)
      modifies this`sessions
      ensures Valid(now + delay)
      ensures Reports(Alone(config, old(Snapshot(now)), Operation.RevokeApp(app), who, delay), e)
      ensures RevokeAnswer(config, old(sessions), app, who, now, e)
    {
      hide Step, Alone, AppFailure, RevokeAnswer;
      UninterruptedRevokeAnswer(config, Snapshot(now), app, who, delay);
      var failure := Check(who, app, now);
      if failure.Some? {
        UninterruptedRefusal(config, Snapshot(now), Operation.RevokeApp(app), who, delay);
        return Failed(who.key, failure.value);
      }
      UninterruptedRevocation(config, Snapshot(now), Operation.RevokeApp(app), who, delay);
      var session := sessions[who.key];
      sessions := sessions[who.key := session.(revoked := session.revoked + {app})];
      return AppRevoked(who.key, app);
    }
  }
}
