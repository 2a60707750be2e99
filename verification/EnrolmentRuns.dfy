/**
 The enrolment protocol over every interleaving of store operations. Consuming a token and
 enrolling the agent are two separate steps of a session, and anything may come between.
 */
module EnrolmentRuns {
  import opened Wrappers
  import opened EnrolmentStore

  /** What the hash is relied on for: no two of these values collide, and none hashes to the empty default. */
  predicate GoodHash(hash: Hash, values: set<string>) {
    && (forall x, y :: x in values && y in values && hash(x) == hash(y) ==> x == y)
    && (forall x :: x in values ==> hash(x) != "")
  }

  datatype Birth = Birth(token: string, at: int)

  /** A token was accepted for an agent. */
  datatype Consumption = Consumption(token: string, agent: string, at: int)

  /** A secret was handed out on the strength of a consumption. */
  datatype Issue = Issue(secret: string, basis: Consumption)

  /**
   The tables and what has happened. `open` holds, for each session between its two steps,
   the consumption it made; the rest is history.
   */
  datatype World = World(
    clock: int, db: Db, open: map<nat, Consumption>,
    births: map<string, Birth>, consumptions: seq<Consumption>, issues: seq<Issue>, deleted: set<string>)

  datatype Step =
    | Tick(to: int)
    | Create(id: string, token: string, name: string, ip: string)
    | Consume(session: nat, token: string)
    | Enrol(session: nat, secret: string)
    | Touch(id: string, ip: string, hostname: string, os: string)
    | SetStatus(id: string, status: string)
    | Delete(id: string)

  const START := World(0, Db(map[], map[]), map[], map[], [], [], {})

  /** Time does not go back; ids, tokens and secrets drawn at random have not been drawn before. */
  ghost predicate Enabled(s: World, step: Step) {
    match step
    case Tick(to) => s.clock <= to
    case Create(id, token, _, _) => id !in s.births && forall i :: i in s.births ==> s.births[i].token != token
    case Consume(n, _) => n !in s.open
    case Enrol(n, secret) => n in s.open && forall k :: 0 <= k < |s.issues| ==> s.issues[k].secret != secret
    case _ => true
  }

  function Next(s: World, step: Step, hash: Hash): World {
    match step
    case Tick(to) => s.(clock := to)
    case Create(id, token, name, ip) =>
      (match Created(s.db, hash, id, token, name, ip, s.clock)
       case Ok(db) => s.(db := db, births := s.births[id := Birth(token, s.clock)])
       case Err(_) => s)
    case Consume(n, token) =>
      (match Consumed(s.db, hash, token, s.clock)
       case (db, Ok(id)) =>
         var c := Consumption(token, id, s.clock);
         s.(db := db, open := s.open[n := c], consumptions := s.consumptions + [c])
       case (_, Err(_)) => s)
    case Enrol(n, secret) =>
      if n !in s.open then s else
      var c := s.open[n];
      s.(db := Enrolled(s.db, hash, c.agent, secret, s.clock), open := s.open - {n},
         issues := s.issues + [Issue(secret, c)])
    case Touch(id, ip, hostname, os) => s.(db := Touched(s.db, id, ip, hostname, os, s.clock))
    case SetStatus(id, status) => s.(db := StatusSet(s.db, id, status))
    case Delete(id) => s.(db := Deleted(s.db, id), deleted := if id in s.births then s.deleted + {id} else s.deleted)
  }

  ghost predicate IsRun(s: World, steps: seq<Step>, hash: Hash)
    decreases |steps|
  {
    steps != [] ==> Enabled(s, steps[0]) && IsRun(Next(s, steps[0], hash), steps[1..], hash)
  }

  function End(s: World, steps: seq<Step>, hash: Hash): World
    decreases |steps|
  {
    if steps == [] then s else End(Next(s, steps[0], hash), steps[1..], hash)
  }

  /** The tokens and secrets of a step: drawn by the server, or presented by whoever takes it. */
  function Values(step: Step): set<string> {
    match step
    case Create(_, token, _, _) => {token}
    case Consume(_, token) => {token}
    case Enrol(_, secret) => {secret}
    case _ => {}
  }

  function ValuesOf(steps: seq<Step>): set<string> {
    if steps == [] then {} else Values(steps[0]) + ValuesOf(steps[1..])
  }

  // ----- The invariant -----

  function TokensOf(cs: seq<Consumption>): set<string> {
    set c | c in cs :: c.token
  }

  lemma TokensOfAppend(cs: seq<Consumption>, c: Consumption)
    ensures TokensOf(cs + [c]) == TokensOf(cs) + {c.token}
  {
    assert forall x :: x in cs + [c] <==> x in cs || x == c;
    assert c in cs + [c];
  }

  /** The secret last handed out for an agent. */
  function SecretOf(issues: seq<Issue>, id: string): Option<string> {
    if issues == [] then None else
    var last := issues[|issues| - 1];
    if last.basis.agent == id then Some(last.secret) else SecretOf(issues[..|issues| - 1], id)
  }

  lemma SecretOfAppend(issues: seq<Issue>, i: Issue, id: string)
    ensures SecretOf(issues + [i], id) == if i.basis.agent == id then Some(i.secret) else SecretOf(issues, id)
  {
    assert (issues + [i])[..|issues|] == issues;
  }

  lemma {:induction false} SecretOfIsIssued(issues: seq<Issue>, id: string)
    ensures match SecretOf(issues, id)
            case Some(secret) =>
              exists k :: 0 <= k < |issues| && issues[k].secret == secret && issues[k].basis.agent == id
            case None => forall k :: 0 <= k < |issues| ==> issues[k].basis.agent != id
  {
    if issues != [] {
      SecretOfIsIssued(issues[..|issues| - 1], id);
    }
  }

  /** One token per agent, each consumed at most once and in time. */
  ghost predicate ConsumptionsMatch(births: map<string, Birth>, cs: seq<Consumption>, clock: int) {
    && (forall i, j :: i in births && j in births && i != j ==> births[i].token != births[j].token)
    && (forall i :: i in births ==> births[i].at <= clock)
    && (forall k :: 0 <= k < |cs| ==>
          && cs[k].agent in births && births[cs[k].agent].token == cs[k].token
          && births[cs[k].agent].at <= cs[k].at <= births[cs[k].agent].at + TOKEN_LIFETIME)
    && (forall j, k :: 0 <= j < k < |cs| ==> cs[j].token != cs[k].token)
  }

  /** Each consumption is spent on at most one secret. */
  ghost predicate IssuesMatch(cs: seq<Consumption>, open: map<nat, Consumption>, issues: seq<Issue>) {
    && (forall n :: n in open ==> open[n] in cs)
    && (forall n, m :: n in open && m in open && n != m ==> open[n].token != open[m].token)
    && (forall k :: 0 <= k < |issues| ==> issues[k].basis in cs)
    && (forall j, k :: 0 <= j < k < |issues| ==>
          issues[j].basis.token != issues[k].basis.token && issues[j].secret != issues[k].secret)
    && (forall n, k :: n in open && 0 <= k < |issues| ==> open[n].token != issues[k].basis.token)
  }

  /** The rows are those of agents created and not deleted. */
  ghost predicate AgentsMatch(db: Db, births: map<string, Birth>, deleted: set<string>) {
    db.agents.Keys == births.Keys - deleted && deleted <= births.Keys
  }

  ghost predicate TokensMatch(db: Db, births: map<string, Birth>, consumed: set<string>, hash: Hash) {
    && (forall id :: id in db.agents ==>
          id in births && hash(births[id].token) in db.tokens && db.tokens[hash(births[id].token)].agentId == id)
    && (forall h :: h in db.tokens ==>
          var id := db.tokens[h].agentId;
          && id in db.agents && id in births
          && h == hash(births[id].token)
          && db.tokens[h].expiresAt == births[id].at + TOKEN_LIFETIME
          && (db.tokens[h].used <==> births[id].token in consumed))
  }

  function HashOf(secret: Option<string>, hash: Hash): string {
    if secret == None then "" else hash(secret.value)
  }

  /** A row carries the hash of the agent's own secret, or none. */
  ghost predicate SecretsMatch(db: Db, issues: seq<Issue>, hash: Hash) {
    forall id :: id in db.agents ==> db.agents[id].secretHash == HashOf(SecretOf(issues, id), hash)
  }

  /** Every token and secret in use is one of `values`. */
  ghost predicate DrawnFrom(s: World, values: set<string>) {
    && (forall id :: id in s.births ==> s.births[id].token in values)
    && (forall k :: 0 <= k < |s.issues| ==> s.issues[k].secret in values)
  }

  ghost predicate Inv(s: World, hash: Hash, values: set<string>) {
    && DrawnFrom(s, values)
    && ConsumptionsMatch(s.births, s.consumptions, s.clock)
    && IssuesMatch(s.consumptions, s.open, s.issues)
    && AgentsMatch(s.db, s.births, s.deleted)
    && TokensMatch(s.db, s.births, TokensOf(s.consumptions), hash)
    && SecretsMatch(s.db, s.issues, hash)
  }

  lemma InvStart(hash: Hash, values: set<string>)
    ensures Inv(START, hash, values)
  {
  }

  lemma TokensMatchCreated(db: Db, births: map<string, Birth>, consumed: set<string>, hash: Hash,
                           id: string, agent: Agent, b: Birth)
    requires TokensMatch(db, births, consumed, hash) && id !in births
    requires hash(b.token) !in db.tokens && b.token !in consumed
    ensures TokensMatch(Db(db.agents[id := agent], db.tokens[hash(b.token) := Token(id, b.at + TOKEN_LIFETIME, false)]),
                        births[id := b], consumed, hash)
  {
  }

  lemma TokensMatchUpdated(db: Db, db': Db, births: map<string, Birth>, consumed: set<string>, hash: Hash)
    requires TokensMatch(db, births, consumed, hash)
    requires db'.agents.Keys == db.agents.Keys && db'.tokens == db.tokens
    ensures TokensMatch(db', births, consumed, hash)
  {
  }

  lemma TokensMatchDeleted(db: Db, births: map<string, Birth>, consumed: set<string>, hash: Hash, id: string)
    requires TokensMatch(db, births, consumed, hash)
    ensures TokensMatch(Deleted(db, id), births, consumed, hash)
  {
  }

  lemma ConsumptionsMatchBorn(births: map<string, Birth>, cs: seq<Consumption>, clock: int, id: string, b: Birth)
    requires ConsumptionsMatch(births, cs, clock) && id !in births && b.at == clock
    requires forall i :: i in births ==> births[i].token != b.token
    ensures ConsumptionsMatch(births[id := b], cs, clock)
  {
  }

  lemma FreshDraws(s: World, id: string, token: string, hash: Hash, values: set<string>)
    requires GoodHash(hash, values) && Inv(s, hash, values)
    requires id !in s.births && token in values && forall i :: i in s.births ==> s.births[i].token != token
    ensures SecretOf(s.issues, id) == None && token !in TokensOf(s.consumptions) && hash(token) !in s.db.tokens
  {
    SecretOfIsIssued(s.issues, id);
  }

  lemma CreateKeeps(s: World, id: string, token: string, name: string, ip: string, hash: Hash, values: set<string>)
    requires GoodHash(hash, values) && Inv(s, hash, values) && Enabled(s, Create(id, token, name, ip))
    requires token in values
    ensures Inv(Next(s, Create(id, token, name, ip), hash), hash, values)
  {
    hide TokensMatch, TokensOf, IssuesMatch, ConsumptionsMatch, GoodHash, SecretOf;
    FreshDraws(s, id, token, hash, values);
    var s', b := Next(s, Create(id, token, name, ip), hash), Birth(token, s.clock);
    var agent := Agent(name, ip, "pending", "", "", "", s.clock, 0);
    assert s'.db == Db(s.db.agents[id := agent],
                       s.db.tokens[hash(token) := Token(id, s.clock + TOKEN_LIFETIME, false)]);
    assert s' == s.(db := s'.db, births := s.births[id := b]);
    hide Next, Created;
    ConsumptionsMatchBorn(s.births, s.consumptions, s.clock, id, b);
    TokensMatchCreated(s.db, s.births, TokensOf(s.consumptions), hash, id, agent, b);
    assert AgentsMatch(s'.db, s'.births, s'.deleted);
    assert SecretsMatch(s'.db, s'.issues, hash);
  }

  lemma ConsumptionsMatchLater(births: map<string, Birth>, cs: seq<Consumption>, clock: int, later: int)
    requires ConsumptionsMatch(births, cs, clock) && clock <= later
    ensures ConsumptionsMatch(births, cs, later)
  {
  }

  lemma TokensMatchConsumed(db: Db, births: map<string, Birth>, consumed: set<string>, hash: Hash, h: string)
    requires TokensMatch(db, births, consumed, hash) && h in db.tokens
    ensures TokensMatch(db.(tokens := db.tokens[h := db.tokens[h].(used := true)]),
                        births, consumed + {births[db.tokens[h].agentId].token}, hash)
  {
  }

  lemma ConsumedFresh(births: map<string, Birth>, cs: seq<Consumption>, clock: int,
                      open: map<nat, Consumption>, issues: seq<Issue>, n: nat, c: Consumption)
    requires ConsumptionsMatch(births, cs, clock) && IssuesMatch(cs, open, issues)
    requires c.token !in TokensOf(cs) && n !in open && c.at == clock
    requires c.agent in births && births[c.agent].token == c.token && clock <= births[c.agent].at + TOKEN_LIFETIME
    ensures ConsumptionsMatch(births, cs + [c], clock)
    ensures IssuesMatch(cs + [c], open[n := c], issues)
  {
    assert forall x :: x in cs ==> x.token != c.token;
  }

  lemma ConsumeKeeps(s: World, n: nat, token: string, hash: Hash, values: set<string>)
    requires GoodHash(hash, values) && Inv(s, hash, values) && Enabled(s, Consume(n, token)) && token in values
    ensures Inv(Next(s, Consume(n, token), hash), hash, values)
  {
    hide ConsumptionsMatch, IssuesMatch, SecretOf, TokensOf;
    var h := hash(token);
    if Consumed(s.db, hash, token, s.clock).1.Ok? {
      var id := s.db.tokens[h].agentId;
      var c := Consumption(token, id, s.clock);
      assert s.births[id].token == token;
      var s' := Next(s, Consume(n, token), hash);
      assert s'.db == s.db.(tokens := s.db.tokens[h := s.db.tokens[h].(used := true)]);
      TokensMatchConsumed(s.db, s.births, TokensOf(s.consumptions), hash, h);
      TokensOfAppend(s.consumptions, c);
      ConsumedFresh(s.births, s.consumptions, s.clock, s.open, s.issues, n, c);
      hide TokensMatch, GoodHash;
    }
  }

  lemma IssueFresh(cs: seq<Consumption>, open: map<nat, Consumption>, issues: seq<Issue>, n: nat, i: Issue)
    requires IssuesMatch(cs, open, issues) && n in open && i.basis == open[n]
    requires forall k :: 0 <= k < |issues| ==> issues[k].secret != i.secret
    ensures IssuesMatch(cs, open - {n}, issues + [i])
  {
  }

  lemma EnrolKeeps(s: World, n: nat, secret: string, hash: Hash, values: set<string>)
    requires Inv(s, hash, values) && Enabled(s, Enrol(n, secret)) && secret in values
    ensures Inv(Next(s, Enrol(n, secret), hash), hash, values)
  {
    hide ConsumptionsMatch, TokensMatch, TokensOf;
    var i := Issue(secret, s.open[n]);
    forall id ensures SecretOf(s.issues + [i], id)
                      == if i.basis.agent == id then Some(secret) else SecretOf(s.issues, id)
    {
      SecretOfAppend(s.issues, i, id);
    }
    IssueFresh(s.consumptions, s.open, s.issues, n, i);
    TokensMatchUpdated(s.db, Enrolled(s.db, hash, i.basis.agent, secret, s.clock), s.births,
                       TokensOf(s.consumptions), hash);
    hide IssuesMatch, SecretOf;
  }

  lemma TickKeeps(s: World, to: int, hash: Hash, values: set<string>)
    requires Inv(s, hash, values) && s.clock <= to
    ensures Inv(s.(clock := to), hash, values)
  {
    ConsumptionsMatchLater(s.births, s.consumptions, s.clock, to);
    hide ConsumptionsMatch, TokensMatch, TokensOf, IssuesMatch, SecretOf, AgentsMatch, SecretsMatch;
  }

  /** Updates that leave ids and hashes alone. */
  lemma UpdateKeeps(s: World, db: Db, hash: Hash, values: set<string>)
    requires Inv(s, hash, values) && db.tokens == s.db.tokens && db.agents.Keys == s.db.agents.Keys
    requires forall id :: id in db.agents ==> db.agents[id].secretHash == s.db.agents[id].secretHash
    ensures Inv(s.(db := db), hash, values)
  {
    hide ConsumptionsMatch, TokensMatch, TokensOf, IssuesMatch, SecretOf;
    TokensMatchUpdated(s.db, db, s.births, TokensOf(s.consumptions), hash);
  }

  lemma DeleteKeeps(s: World, id: string, hash: Hash, values: set<string>)
    requires Inv(s, hash, values)
    ensures Inv(Next(s, Delete(id), hash), hash, values)
  {
    hide ConsumptionsMatch, TokensMatch, TokensOf, IssuesMatch, SecretOf;
    TokensMatchDeleted(s.db, s.births, TokensOf(s.consumptions), hash, id);
  }

  lemma {:induction false} InvRun(s: World, steps: seq<Step>, hash: Hash, values: set<string>)
    requires GoodHash(hash, values) && Inv(s, hash, values) && IsRun(s, steps, hash) && ValuesOf(steps) <= values
    ensures Inv(End(s, steps, hash), hash, values)
    decreases |steps|
  {
    hide Inv, GoodHash, Enrolled, Created, Consumed, Deleted;
    if steps != [] {
      match steps[0] {
        case Create(id, token, name, ip) => CreateKeeps(s, id, token, name, ip, hash, values);
        case Consume(n, token) => ConsumeKeeps(s, n, token, hash, values);
        case Enrol(n, secret) => EnrolKeeps(s, n, secret, hash, values);
        case Tick(to) => TickKeeps(s, to, hash, values);
        case Touch(id, ip, hostname, os) => UpdateKeeps(s, Touched(s.db, id, ip, hostname, os, s.clock), hash, values);
        case SetStatus(id, status) => UpdateKeeps(s, StatusSet(s.db, id, status), hash, values);
        case Delete(id) => DeleteKeeps(s, id, hash, values);
      }
      InvRun(Next(s, steps[0], hash), steps[1..], hash, values);
    }
  }

  // ----- What every run guarantees -----

  lemma {:induction false} InvEnd(steps: seq<Step>, hash: Hash, values: set<string>)
    requires GoodHash(hash, values) && IsRun(START, steps, hash) && ValuesOf(steps) <= values
    ensures Inv(End(START, steps, hash), hash, values)
  {
    hide Inv, START;
    InvStart(hash, values);
    InvRun(START, steps, hash, values);
  }

  /** Each token is consumed at most once, before it expires, for the one agent it was made for. */
  lemma TokensAreOneTime(steps: seq<Step>, hash: Hash)
    requires GoodHash(hash, ValuesOf(steps)) && IsRun(START, steps, hash)
    ensures var s := End(START, steps, hash);
            var cs, births := s.consumptions, s.births;
            && (forall j, k :: 0 <= j < k < |cs| ==> cs[j].token != cs[k].token)
            && (forall k :: 0 <= k < |cs| ==>
                  && cs[k].agent in births && births[cs[k].agent].token == cs[k].token
                  && births[cs[k].agent].at <= cs[k].at <= births[cs[k].agent].at + TOKEN_LIFETIME)
  {
    InvEnd(steps, hash, ValuesOf(steps));
    hide End, START, IsRun;
  }

  /** Each agent is given at most one secret, and only for a consumption of its own token. */
  lemma OneSecretPerAgent(steps: seq<Step>, hash: Hash)
    requires GoodHash(hash, ValuesOf(steps)) && IsRun(START, steps, hash)
    ensures var s := End(START, steps, hash);
            && (forall j, k :: 0 <= j < k < |s.issues| ==> s.issues[j].basis.agent != s.issues[k].basis.agent)
            && (forall k :: 0 <= k < |s.issues| ==> s.issues[k].basis in s.consumptions)
  {
    InvEnd(steps, hash, ValuesOf(steps));
    hide End, START, IsRun;
  }

  ghost predicate IssuedTo(issues: seq<Issue>, secret: string, id: string) {
    exists k :: 0 <= k < |issues| && issues[k].secret == secret && issues[k].basis.agent == id
  }

  lemma IssuedToIsSecretOf(issues: seq<Issue>, secret: string, id: string)
    requires forall j, k :: 0 <= j < k < |issues| ==> issues[j].basis.agent != issues[k].basis.agent
    ensures IssuedTo(issues, secret, id) <==> SecretOf(issues, id) == Some(secret)
  {
    SecretOfIsIssued(issues, id);
  }

  lemma IssuedAgentsDiffer(births: map<string, Birth>, cs: seq<Consumption>, open: map<nat, Consumption>,
                           issues: seq<Issue>, clock: int)
    requires ConsumptionsMatch(births, cs, clock) && IssuesMatch(cs, open, issues)
    ensures forall j, k :: 0 <= j < k < |issues| ==> issues[j].basis.agent != issues[k].basis.agent
  {
  }

  lemma OwnSecretOnly(s: World, hash: Hash, secret: string, id: string, values: set<string>)
    requires GoodHash(hash, values) && SecretsMatch(s.db, s.issues, hash) && secret in values
    requires forall k :: 0 <= k < |s.issues| ==> s.issues[k].secret in values
    ensures Authenticates(s.db, hash, secret, id) <==> id in s.db.agents && SecretOf(s.issues, id) == Some(secret)
  {
    SecretOfIsIssued(s.issues, id);
  }

  lemma IssuedAgentExisted(births: map<string, Birth>, cs: seq<Consumption>, open: map<nat, Consumption>,
                           issues: seq<Issue>, clock: int, secret: string, id: string)
    requires ConsumptionsMatch(births, cs, clock) && IssuesMatch(cs, open, issues) && IssuedTo(issues, secret, id)
    ensures id in births
  {
  }

  /**
   In every reachable state a secret authenticates exactly the agent it was handed out for,
   and that only while the agent has not been deleted.
   */
  lemma {:induction false} SecretsAuthenticateTheirAgent(steps: seq<Step>, hash: Hash, secret: string, id: string)
    requires GoodHash(hash, ValuesOf(steps) + {secret}) && IsRun(START, steps, hash)
    ensures var s := End(START, steps, hash);
            Authenticates(s.db, hash, secret, id) <==> IssuedTo(s.issues, secret, id) && id !in s.deleted
  {
    hide End, START, IsRun, ConsumptionsMatch, IssuesMatch, TokensMatch, SecretsMatch, GoodHash, IssuedTo,
      Authenticates;
    var s, values := End(START, steps, hash), ValuesOf(steps) + {secret};
    InvEnd(steps, hash, values);
    IssuedAgentsDiffer(s.births, s.consumptions, s.open, s.issues, s.clock);
    IssuedToIsSecretOf(s.issues, secret, id);
    OwnSecretOnly(s, hash, secret, id, values);
    if IssuedTo(s.issues, secret, id) {
      IssuedAgentExisted(s.births, s.consumptions, s.open, s.issues, s.clock, secret, id);
    }
  }

  /** A token is accepted exactly while its agent exists, it is unspent, and its day has not passed. */
  lemma {:induction false} TokenAcceptedIff(steps: seq<Step>, hash: Hash, id: string)
    requires GoodHash(hash, ValuesOf(steps)) && IsRun(START, steps, hash)
    requires id in End(START, steps, hash).births
    ensures var s := End(START, steps, hash);
            var b := s.births[id];
            Consumed(s.db, hash, b.token, s.clock).1 == Ok(id)
            <==> id !in s.deleted && b.token !in TokensOf(s.consumptions) && s.clock <= b.at + TOKEN_LIFETIME
  {
    InvEnd(steps, hash, ValuesOf(steps));
    hide End, START, IsRun;
  }

  lemma {:induction false} RunAppend(s: World, a: seq<Step>, b: seq<Step>, hash: Hash)
    ensures End(s, a + b, hash) == End(End(s, a, hash), b, hash)
    decreases |a|
  {
    if a == [] {
      assert a + b == b;
    } else {
      assert (a + b)[1..] == a[1..] + b;
      RunAppend(Next(s, a[0], hash), a[1..], b, hash);
    }
  }

  lemma {:induction false} DeletedForGood(s: World, steps: seq<Step>, hash: Hash)
    ensures s.deleted <= End(s, steps, hash).deleted
    decreases |steps|
  {
    if steps != [] {
      DeletedForGood(Next(s, steps[0], hash), steps[1..], hash);
    }
  }

  /**
   Whatever happens afterwards, no secret authenticates an agent that was deleted, even if
   the deletion fell between the two steps of its own enrolment.
   */
  lemma DeletedNeverAuthenticates(before: seq<Step>, after: seq<Step>, hash: Hash, secret: string, id: string)
    requires GoodHash(hash, ValuesOf(before + after) + {secret}) && IsRun(START, before + after, hash)
    requires id in End(START, before, hash).deleted
    ensures !Authenticates(End(START, before + after, hash).db, hash, secret, id)
  {
    hide Authenticates, GoodHash, START;
    RunAppend(START, before, after, hash);
    DeletedForGood(End(START, before, hash), after, hash);
    SecretsAuthenticateTheirAgent(before + after, hash, secret, id);
  }
}
