/** OpenID Connect logins: login states that are consumed in place, identities linked to
    operators, and the sessions a login creates. */
module Oidc {
  import opened Prelude
  import opened Text

  datatype LoginState = LoginState(
    stateHash: string, providerId: string, codeVerifier: string, redirectPath: string, expiresAt: int)

  datatype StateRow = StateRow(state: LoginState, createdAt: int, consumedAt: Option<int>)

  datatype ConsumeCommand = ConsumeCommand(stateHash: string, providerId: string, now: int)

  datatype ConsumedState = ConsumedState(codeVerifier: string, redirectPath: string)

  datatype Identity = Identity(providerId: string, subject: string, email: string)

  datatype IdentityKey = IdentityKey(providerId: string, subject: string)

  datatype Link = Link(operatorId: string, email: string, createdAt: int, lastLoginAt: int)

  datatype Session = Session(operatorId: string, createdAt: int, expiresAt: int)

  // Operators by age; `member` when the operator belongs to a project of one of its organizations.
  datatype Operator = Operator(id: string, email: string, active: bool, member: bool)

  // oauth_login_states by state_hash, operator_external_identities by (provider_id, subject) and
  // operator_sessions by token_hash.
  datatype Tables = Tables(
    states: map<string, StateRow>, links: map<IdentityKey, Link>, sessions: map<string, Session>)

  // A statement of the login transaction that the database refuses for a reason of its own.
  datatype Stage = Begin | FindOperator | FindLink | WriteLink | WriteSession | Commit

  datatype OidcError = NoRows | DuplicateState | LinkedElsewhere | UniqueViolation | OperatorInvalid | Database

  const SESSION_LIFETIME := 30 * 24 * 60 * 60

  function KeyOf(identity: Identity): IdentityKey {
    IdentityKey(identity.providerId, identity.subject)
  }

  // ---- what each statement does to the tables ----

  predicate Stores(t: Tables, s: LoginState, fails: bool) {
    !fails && s.stateHash !in t.states
  }

  predicate Consumes(t: Tables, c: ConsumeCommand, fails: bool) {
    && !fails && c.stateHash in t.states
    && var row := t.states[c.stateHash];
       row.state.providerId == c.providerId && c.now < row.state.expiresAt && row.consumedAt == None
       && row.createdAt <= c.now // the table's own check
  }

  // The oldest active operator with this address and a project.
  function ActiveOperator(operators: seq<Operator>, email: string): Option<string> {
    if operators == [] then None
    else
      var o := operators[0];
      if ToLower(o.email) == ToLower(email) && o.active && o.member then Some(o.id)
      else ActiveOperator(operators[1..], email)
  }

  // The operator at k may log in with this address, and no older one may.
  predicate OldestWith(operators: seq<Operator>, email: string, k: nat) {
    && k < |operators| && MayLogIn(operators[k], email)
    && forall j :: 0 <= j < k ==> !MayLogIn(operators[j], email)
  }

  predicate MayLogIn(o: Operator, email: string) {
    o.active && o.member && ToLower(o.email) == ToLower(email)
  }

  /** The operator an address resolves to is the oldest one that is active, belongs to a project
      and has that address in some mix of cases; there is none exactly when nobody qualifies. */
  lemma {:induction false} ActiveOperatorExactly(operators: seq<Operator>, email: string)
    ensures ActiveOperator(operators, email) == None
        <==> forall i :: 0 <= i < |operators| ==> !MayLogIn(operators[i], email)
    ensures ActiveOperator(operators, email).Some?
        ==> exists k: nat :: OldestWith(operators, email, k) && operators[k].id == ActiveOperator(operators, email).value
    ensures forall k: nat :: OldestWith(operators, email, k) ==> ActiveOperator(operators, email) == Some(operators[k].id)
  {
    if operators != [] {
      var rest := operators[1..];
      ActiveOperatorExactly(rest, email);
      if MayLogIn(operators[0], email) {
        assert OldestWith(operators, email, 0);
      } else {
        forall k: nat | OldestWith(operators, email, k)
          ensures OldestWith(rest, email, k - 1)
        {
          assert forall j :: 0 <= j < k - 1 ==> rest[j] == operators[j + 1];
        }
        forall k: nat | OldestWith(rest, email, k)
          ensures OldestWith(operators, email, k + 1) && operators[k + 1] == rest[k]
        {
          assert forall j :: 1 <= j < k + 1 ==> operators[j] == rest[j - 1];
        }
        assert forall i :: 0 <= i < |rest| ==> rest[i] == operators[i + 1];
        assert forall i :: 1 <= i < |operators| ==> operators[i] == rest[i - 1];
      }
    }
  }

  // The two unique constraints on the links, as an insert or update for this operator meets them.
  predicate LinkIsFree(links: map<IdentityKey, Link>, key: IdentityKey, operatorId: string) {
    if key in links then links[key].operatorId == operatorId
    else forall k :: k in links && k.providerId == key.providerId ==> links[k].operatorId != operatorId
  }

  predicate Logs(t: Tables, identity: Identity, operators: seq<Operator>, tokenHash: string, fault: Option<Stage>) {
    && fault == None && ActiveOperator(operators, identity.email).Some?
    && LinkIsFree(t.links, KeyOf(identity), ActiveOperator(operators, identity.email).value)
    && tokenHash !in t.sessions
  }

  function Linked(links: map<IdentityKey, Link>, identity: Identity, operatorId: string, now: int): Link {
    var key := KeyOf(identity);
    if key in links then links[key].(email := identity.email, lastLoginAt := now)
    else Link(operatorId, identity.email, now, now)
  }

  function LoggedIn(t: Tables, identity: Identity, operatorId: string, now: int, tokenHash: string): Tables {
    t.(links := t.links[KeyOf(identity) := Linked(t.links, identity, operatorId, now)],
       sessions := t.sessions[tokenHash := Session(operatorId, now, now + SESSION_LIFETIME)])
  }

  // What a login as this operator leaves, field by field.
  predicate LoggedInAs(t: Tables, t': Tables, identity: Identity, operatorId: string, now: int, tokenHash: string) {
    var key := IdentityKey(identity.providerId, identity.subject);
    && t'.states == t.states
    && tokenHash !in t.sessions && tokenHash in t'.sessions && t'.sessions - {tokenHash} == t.sessions
    && t'.sessions[tokenHash].operatorId == operatorId && t'.sessions[tokenHash].createdAt == now
    && t'.sessions[tokenHash].expiresAt == now + 2592000
    && key in t'.links && t'.links - {key} == t.links - {key}
    && t'.links[key].operatorId == operatorId && t'.links[key].email == identity.email
    && t'.links[key].lastLoginAt == now
    && t'.links[key].createdAt == (if key in t.links then t.links[key].createdAt else now)
  }

  lemma LoggedInFields(t: Tables, identity: Identity, operatorId: string, now: int, tokenHash: string)
    requires LinkIsFree(t.links, KeyOf(identity), operatorId) && tokenHash !in t.sessions
    ensures LoggedInAs(t, LoggedIn(t, identity, operatorId, now, tokenHash), identity, operatorId, now, tokenHash)
  {
    var t' := LoggedIn(t, identity, operatorId, now, tokenHash);
    assert t'.sessions - {tokenHash} == t.sessions;
    assert t'.links - {KeyOf(identity)} == t.links - {KeyOf(identity)};
  }

  // ---- the store ----

  class OidcStore {
    var states: map<string, StateRow>
    var links: map<IdentityKey, Link>
    var sessions: map<string, Session>

    constructor ()
      ensures Contents() == EMPTY
    {
      states, links, sessions := map[], map[], map[];
    }

    function Contents(): Tables
      reads this
    {
      Tables(states, links, sessions)
    }

    method StoreLoginState(s: LoginState, now: int, fails: bool) returns (r: Result<(), OidcError>)
      modifies this`states
      ensures r.Ok? <==> Stores(old(Contents()), s, fails)
      ensures Contents() == After(old(Contents()), StoreState(s, now, fails))
    {
      if fails { return Err(Database); }
      if s.stateHash in states { return Err(DuplicateState); }
      states := states[s.stateHash := StateRow(s, now, None)];
      return Ok(());
    }

    method ConsumeLoginState(c: ConsumeCommand, fails: bool) returns (r: Result<ConsumedState, OidcError>)
      modifies this`states
      ensures r.Ok? <==> Consumes(old(Contents()), c, fails)
      ensures Contents() == After(old(Contents()), ConsumeState(c, fails))
      ensures r.Ok? ==>
                && c.stateHash in states && states[c.stateHash].consumedAt == Some(c.now)
                && r.value.codeVerifier == states[c.stateHash].state.codeVerifier
                && r.value.redirectPath == states[c.stateHash].state.redirectPath
    {
      if fails { return Err(Database); }
      if c.stateHash !in states { return Err(NoRows); }
      var row := states[c.stateHash];
      if row.state.providerId != c.providerId || row.state.expiresAt <= c.now || row.consumedAt.Some? {
        return Err(NoRows);
      }
      if c.now < row.createdAt { return Err(Database); }
      states := states[c.stateHash := row.(consumedAt := Some(c.now))];
      return Ok(ConsumedState(row.state.codeVerifier, row.state.redirectPath));
    }

    method EnsureExternalIdentityOwner(identity: Identity, operatorId: string) returns (conflict: bool)
      ensures conflict <==> KeyOf(identity) in links && links[KeyOf(identity)].operatorId != operatorId
    {
      var key := KeyOf(identity);
      if key !in links { return false; }
      return links[key].operatorId != operatorId;
    }

    // The insert with its `on conflict (provider_id, subject)` branch, which keeps the operator.
    method UpsertExternalIdentity(identity: Identity, operatorId: string, now: int)
      returns (r: Result<map<IdentityKey, Link>, OidcError>)
      requires KeyOf(identity) in links ==> links[KeyOf(identity)].operatorId == operatorId
      ensures r.Ok? <==> LinkIsFree(links, KeyOf(identity), operatorId)
      ensures r.Ok? ==> r.value == links[KeyOf(identity) := Linked(links, identity, operatorId, now)]
    {
      var key := KeyOf(identity);
      if key in links {
        return Ok(links[key := links[key].(email := identity.email, lastLoginAt := now)]);
      }
      if exists k :: k in links && k.providerId == key.providerId && links[k].operatorId == operatorId {
        return Err(UniqueViolation);
      }
      return Ok(links[key := Link(operatorId, identity.email, now, now)]);
    }

    // One transaction; a fault or a refusal at any statement rolls it back.
    method LoginWithIdentity(identity: Identity, operators: seq<Operator>, now: int, tokenHash: string,
                             fault: Option<Stage>)
      returns (r: Result<string, OidcError>)
      modifies this`links, this`sessions
      ensures Contents() == After(old(Contents()), Login(identity, operators, now, tokenHash, fault))
      ensures r.Ok? <==>
              Logs(old(Contents()), identity, operators, tokenHash, fault)
              && ActiveOperator(operators, identity.email) != Some("")
      ensures r.Ok? ==> r.value == tokenHash
      ensures r.Ok? ==> exists k: nat :: OldestWith(operators, identity.email, k)
                                         && LoggedInAs(old(Contents()), Contents(), identity, operators[k].id, now, tokenHash)
    {
      ActiveOperatorExactly(operators, identity.email);
      if fault == Some(Begin) || fault == Some(FindOperator) { return Err(Database); }
      var operatorId := ActiveOperator(operators, identity.email);
      if operatorId == None { return Err(NoRows); }
      if fault == Some(FindLink) { return Err(Database); }
      var conflict := EnsureExternalIdentityOwner(identity, operatorId.value);
      if conflict { return Err(LinkedElsewhere); }
      if fault == Some(WriteLink) { return Err(Database); }
      var linked := UpsertExternalIdentity(identity, operatorId.value, now);
      if linked.Err? { return Err(linked.error); }
      if fault == Some(WriteSession) { return Err(Database); }
      if tokenHash in sessions { return Err(UniqueViolation); }
      if fault.Some? { return Err(Database); } // only the commit is left to fail
      links := linked.value;
      sessions := sessions[tokenHash := Session(operatorId.value, now, now + SESSION_LIFETIME)];
      LoggedInFields(old(Contents()), identity, operatorId.value, now, tokenHash);
      if operatorId.value == "" { return Err(OperatorInvalid); }
      return Ok(tokenHash);
    }
  }

  // ---- runs ----

  datatype Step =
    | StoreState(state: LoginState, now: int, fails: bool)
    | ConsumeState(command: ConsumeCommand, fails: bool)
    | Login(identity: Identity, operators: seq<Operator>, now: int, tokenHash: string, fault: Option<Stage>)

  const EMPTY := Tables(map[], map[], map[])

  predicate Effective(t: Tables, s: Step) {
    match s
    case StoreState(state, _, fails) => Stores(t, state, fails)
    case ConsumeState(c, fails) => Consumes(t, c, fails)
    case Login(identity, operators, _, tokenHash, fault) => Logs(t, identity, operators, tokenHash, fault)
  }

  function After(t: Tables, s: Step): Tables {
    if !Effective(t, s) then t
    else
      match s
      case StoreState(state, now, _) => t.(states := t.states[state.stateHash := StateRow(state, now, None)])
      case ConsumeState(c, _) =>
        t.(states := t.states[c.stateHash := t.states[c.stateHash].(consumedAt := Some(c.now))])
      case Login(identity, operators, now, tokenHash, _) =>
        LoggedIn(t, identity, ActiveOperator(operators, identity.email).value, now, tokenHash)
  }

  function AfterRun(steps: seq<Step>): Tables {
    if steps == [] then EMPTY else After(AfterRun(steps[..|steps| - 1]), steps[|steps| - 1])
  }

  // The i-th step of a run took effect.
  predicate Happens(steps: seq<Step>, i: nat)
    requires i < |steps|
  {
    Effective(AfterRun(steps[..i]), steps[i])
  }

  // ---- what no later step takes back ----

  ghost predicate StatesKept(a: map<string, StateRow>, b: map<string, StateRow>) {
    forall h :: h in a ==>
      h in b && b[h].state == a[h].state && (a[h].consumedAt.Some? ==> b[h].consumedAt == a[h].consumedAt)
  }

  ghost predicate LinksKept(a: map<IdentityKey, Link>, b: map<IdentityKey, Link>) {
    forall k :: k in a ==> k in b && b[k].operatorId == a[k].operatorId
  }

  ghost predicate SessionsKept(a: map<string, Session>, b: map<string, Session>) {
    forall h :: h in a ==> h in b && b[h] == a[h]
  }

  ghost predicate Kept(a: Tables, b: Tables) {
    StatesKept(a.states, b.states) && LinksKept(a.links, b.links) && SessionsKept(a.sessions, b.sessions)
  }

  lemma StepKeeps(t: Tables, s: Step)
    ensures Kept(t, After(t, s))
  {
  }

  lemma {:induction false} RunKeeps(steps: seq<Step>, i: nat)
    requires i <= |steps|
    ensures Kept(AfterRun(steps[..i]), AfterRun(steps))
  {
    if i == |steps| {
      assert steps[..i] == steps;
    } else {
      var front := steps[..|steps| - 1];
      RunKeeps(front, i);
      assert front[..i] == steps[..i];
      StepKeeps(AfterRun(front), steps[|steps| - 1]);
    }
  }

  lemma AfterStep(steps: seq<Step>, i: nat)
    requires i < |steps|
    ensures AfterRun(steps[..i + 1]) == After(AfterRun(steps[..i]), steps[i])
  {
    assert steps[..i + 1][..i] == steps[..i];
  }

  lemma BetweenKeeps(steps: seq<Step>, i: nat, j: nat)
    requires i <= j <= |steps|
    ensures Kept(AfterRun(steps[..i]), AfterRun(steps[..j]))
  {
    assert steps[..j][..i] == steps[..i];
    RunKeeps(steps[..j], i);
  }

  // ---- login states ----

  /** No login state is consumed twice. */
  lemma ConsumedAtMostOnce(steps: seq<Step>, i: nat, j: nat)
    requires i < |steps| && j < |steps| && steps[i].ConsumeState? && steps[j].ConsumeState?
    requires steps[i].command.stateHash == steps[j].command.stateHash
    requires Happens(steps, i) && Happens(steps, j)
    ensures i == j
  {
    var first, second := if i < j then i else j, if i < j then j else i;
    if first < second {
      AfterStep(steps, first);
      BetweenKeeps(steps, first + 1, second);
      assert false;
    }
  }

  ghost predicate StoredBy(steps: seq<Step>, i: nat, row: StateRow) {
    && i < |steps| && steps[i].StoreState? && Happens(steps, i)
    && steps[i].state == row.state && steps[i].now == row.createdAt
  }

  lemma {:induction false} StateHasItsStore(steps: seq<Step>, h: string) returns (i: nat)
    requires h in AfterRun(steps).states
    ensures StoredBy(steps, i, AfterRun(steps).states[h]) && steps[i].state.stateHash == h
  {
    var front, last := steps[..|steps| - 1], steps[|steps| - 1];
    if last.StoreState? && Effective(AfterRun(front), last) && last.state.stateHash == h {
      i := |steps| - 1;
    } else {
      i := StateHasItsStore(front, h);
      assert front[..i] == steps[..i];
    }
  }

  /** A consumption is by the provider the state was stored for, no earlier than it was stored and
      strictly before it expires, and yields the verifier and path of that one store. */
  lemma ConsumptionHasItsStore(steps: seq<Step>, j: nat) returns (i: nat)
    requires j < |steps| && steps[j].ConsumeState? && Happens(steps, j)
    ensures i < j && steps[i].StoreState? && Happens(steps, i)
    ensures steps[i].state.stateHash == steps[j].command.stateHash
    ensures steps[i].state.providerId == steps[j].command.providerId
    ensures steps[i].now <= steps[j].command.now < steps[i].state.expiresAt
    ensures AfterRun(steps[..j]).states[steps[j].command.stateHash].state == steps[i].state
  {
    i := StateHasItsStore(steps[..j], steps[j].command.stateHash);
    assert steps[..j][..i] == steps[..i];
  }

  /** At most one step of a run stores a given state hash. */
  lemma StoredAtMostOnce(steps: seq<Step>, i: nat, j: nat)
    requires i < |steps| && j < |steps| && steps[i].StoreState? && steps[j].StoreState?
    requires steps[i].state.stateHash == steps[j].state.stateHash && Happens(steps, i) && Happens(steps, j)
    ensures i == j
  {
    var first, second := if i < j then i else j, if i < j then j else i;
    if first < second {
      AfterStep(steps, first);
      BetweenKeeps(steps, first + 1, second);
      assert false;
    }
  }

  // ---- links and sessions ----

  ghost predicate OneSubjectPerOperator(links: map<IdentityKey, Link>) {
    forall a, b :: (a in links && b in links && a.providerId == b.providerId
                    && links[a].operatorId == links[b].operatorId) ==> a == b
  }

  lemma LoginKeepsOneSubject(links: map<IdentityKey, Link>, identity: Identity, operatorId: string, now: int)
    requires OneSubjectPerOperator(links) && LinkIsFree(links, KeyOf(identity), operatorId)
    ensures OneSubjectPerOperator(links[KeyOf(identity) := Linked(links, identity, operatorId, now)])
  {
  }

  /** Within a provider no operator is ever linked to two subjects. */
  lemma {:induction false} OneSubjectAlways(steps: seq<Step>)
    ensures OneSubjectPerOperator(AfterRun(steps).links)
  {
    if steps != [] {
      var front, last := steps[..|steps| - 1], steps[|steps| - 1];
      OneSubjectAlways(front);
      if last.Login? && Effective(AfterRun(front), last) {
        LoginKeepsOneSubject(AfterRun(front).links, last.identity,
                             ActiveOperator(last.operators, last.identity.email).value, last.now);
      }
    }
  }

  /** Once linked, a (provider, subject) pair keeps its operator for the rest of the run. */
  lemma LinkNeverChanges(steps: seq<Step>, i: nat, j: nat, key: IdentityKey)
    requires i <= j <= |steps| && key in AfterRun(steps[..i]).links
    ensures key in AfterRun(steps[..j]).links
    ensures AfterRun(steps[..j]).links[key].operatorId == AfterRun(steps[..i]).links[key].operatorId
  {
    BetweenKeeps(steps, i, j);
  }

  // The operator that an effective login resolves.
  function OperatorOf(s: Step): string
    requires s.Login? && ActiveOperator(s.operators, s.identity.email).Some?
  {
    ActiveOperator(s.operators, s.identity.email).value
  }

  /** A login creates its session for the operator its identity is linked to, then and ever after. */
  lemma SessionBelongsToLinkedOperator(steps: seq<Step>, i: nat)
    requires i < |steps| && steps[i].Login? && Happens(steps, i)
    ensures KeyOf(steps[i].identity) in AfterRun(steps).links && steps[i].tokenHash in AfterRun(steps).sessions
    ensures AfterRun(steps).sessions[steps[i].tokenHash].operatorId == OperatorOf(steps[i])
    ensures AfterRun(steps).links[KeyOf(steps[i].identity)].operatorId == OperatorOf(steps[i])
    ensures steps[i].tokenHash !in AfterRun(steps[..i]).sessions
  {
    AfterStep(steps, i);
    RunKeeps(steps, i + 1);
  }

  /** The session of a login belongs to an operator of its own directory who was active, in a
      project and the oldest with the identity's address, and lasts thirty days. */
  lemma SessionIsOfTheAddressee(steps: seq<Step>, i: nat) returns (k: nat)
    requires i < |steps| && steps[i].Login? && Happens(steps, i)
    ensures OldestWith(steps[i].operators, steps[i].identity.email, k)
    ensures steps[i].tokenHash in AfterRun(steps).sessions
    ensures AfterRun(steps).sessions[steps[i].tokenHash]
         == Session(steps[i].operators[k].id, steps[i].now, steps[i].now + 2592000)
  {
    ActiveOperatorExactly(steps[i].operators, steps[i].identity.email);
    k :| OldestWith(steps[i].operators, steps[i].identity.email, k);
    AfterStep(steps, i);
    RunKeeps(steps, i + 1);
  }

  lemma {:induction false} SessionHasItsLogin(steps: seq<Step>, tokenHash: string) returns (i: nat)
    requires tokenHash in AfterRun(steps).sessions
    ensures i < |steps| && steps[i].Login? && Happens(steps, i) && steps[i].tokenHash == tokenHash
  {
    var front, last := steps[..|steps| - 1], steps[|steps| - 1];
    if last.Login? && Effective(AfterRun(front), last) && last.tokenHash == tokenHash {
      i := |steps| - 1;
    } else {
      i := SessionHasItsLogin(front, tokenHash);
      assert front[..i] == steps[..i];
    }
  }

  /** Every session there is came from a login of an identity that is linked to the session's
      operator, who was an active member with that identity's address. */
  lemma EverySessionIsLinked(steps: seq<Step>, tokenHash: string) returns (i: nat, k: nat)
    requires tokenHash in AfterRun(steps).sessions
    ensures i < |steps| && steps[i].Login? && KeyOf(steps[i].identity) in AfterRun(steps).links
    ensures AfterRun(steps).links[KeyOf(steps[i].identity)].operatorId == AfterRun(steps).sessions[tokenHash].operatorId
    ensures k < |steps[i].operators| && MayLogIn(steps[i].operators[k], steps[i].identity.email)
    ensures steps[i].operators[k].id == AfterRun(steps).sessions[tokenHash].operatorId
  {
    i := SessionHasItsLogin(steps, tokenHash);
    SessionBelongsToLinkedOperator(steps, i);
    k := SessionIsOfTheAddressee(steps, i);
  }

  /** Two logins of one provider reach the same operator exactly when they are of the same subject. */
  lemma SameOperatorIffSameSubject(steps: seq<Step>, i: nat, j: nat)
    requires i < |steps| && j < |steps| && steps[i].Login? && steps[j].Login?
    requires Happens(steps, i) && Happens(steps, j)
    requires steps[i].identity.providerId == steps[j].identity.providerId
    ensures OperatorOf(steps[i]) == OperatorOf(steps[j]) <==> steps[i].identity.subject == steps[j].identity.subject
  {
    SessionBelongsToLinkedOperator(steps, i);
    SessionBelongsToLinkedOperator(steps, j);
    OneSubjectAlways(steps);
    var a, b := KeyOf(steps[i].identity), KeyOf(steps[j].identity);
    assert a.providerId == b.providerId;
  }
}
