/**
 The agent and enrolment-token tables of the manager's store. Each operation runs under
 the store's mutex, so each is one step; random values and clock readings are parameters,
 and so is the hash.
 */
module EnrolmentStore {
  import opened Wrappers

  const TOKEN_LIFETIME: int := 24 * 3600

  datatype Agent = Agent(name: string, ip: string, status: string, hostname: string, os: string,
                         secretHash: string, createdAt: int, lastSeen: int)

  datatype Token = Token(agentId: string, expiresAt: int, used: bool)

  datatype Db = Db(agents: map<string, Agent>, tokens: map<string, Token>)

  datatype Error = Duplicate | InvalidToken | AlreadyUsed | TokenExpired | UnknownSecret

  type Hash = string -> string

  // ----- What each operation does to the tables -----

  function Created(db: Db, hash: Hash, id: string, token: string, name: string, ip: string,
                   now: int): Result<Db, Error>
  {
    if id in db.agents || hash(token) in db.tokens then Err(Duplicate)
    else Ok(Db(db.agents[id := Agent(name, ip, "pending", "", "", "", now, 0)],
               db.tokens[hash(token) := Token(id, now + TOKEN_LIFETIME, false)]))
  }

  function Consumed(db: Db, hash: Hash, token: string, now: int): (Db, Result<string, Error>) {
    var h := hash(token);
    if h !in db.tokens then (db, Err(InvalidToken))
    else if db.tokens[h].used then (db, Err(AlreadyUsed))
    else if now > db.tokens[h].expiresAt then (db, Err(TokenExpired))
    else (db.(tokens := db.tokens[h := db.tokens[h].(used := true)]), Ok(db.tokens[h].agentId))
  }

  /** An UPDATE of a row that is gone changes nothing and is no error. */
  function Updated(db: Db, id: string, row: Agent -> Agent): Db {
    if id in db.agents then db.(agents := db.agents[id := row(db.agents[id])]) else db
  }

  function Enrolled(db: Db, hash: Hash, id: string, secret: string, now: int): Db {
    Updated(db, id, (a: Agent) => a.(secretHash := hash(secret), status := "online", lastSeen := now))
  }

  function Touched(db: Db, id: string, ip: string, hostname: string, os: string, now: int): Db {
    Updated(db, id, (a: Agent) => a.(lastSeen := now, status := "online", hostname := hostname, os := os, ip := ip))
  }

  function StatusSet(db: Db, id: string, status: string): Db {
    Updated(db, id, (a: Agent) => a.(status := status))
  }

  function Deleted(db: Db, id: string): Db {
    Db(db.agents - {id}, map h | h in db.tokens && db.tokens[h].agentId != id :: db.tokens[h])
  }

  /** The row a secret selects. */
  predicate Authenticates(db: Db, hash: Hash, secret: string, id: string) {
    id in db.agents && db.agents[id].secretHash == hash(secret)
  }

  /** Heartbeats and status changes, whoever sends them, never change whom a secret or a token stands for. */
  lemma LivenessChangesNoCredential(db: Db, hash: Hash, id: string, ip: string, hostname: string, os: string, now: int,
                                    status: string, secret: string, other: string, token: string)
    ensures var touched, marked := Touched(db, id, ip, hostname, os, now), StatusSet(db, id, status);
            && (Authenticates(touched, hash, secret, other) <==> Authenticates(db, hash, secret, other))
            && (Authenticates(marked, hash, secret, other) <==> Authenticates(db, hash, secret, other))
            && Consumed(touched, hash, token, now).1 == Consumed(db, hash, token, now).1
            && Consumed(marked, hash, token, now).1 == Consumed(db, hash, token, now).1
            && touched.agents.Keys == marked.agents.Keys == db.agents.Keys
  {
  }

  // ----- The store itself -----

  class Store {
    const hash: Hash
    var agents: map<string, Agent>
    var tokens: map<string, Token>

    function Tables(): Db
      reads this
    {
      Db(agents, tokens)
    }

    constructor (hash: Hash)
      ensures this.hash == hash && Tables() == Db(map[], map[])
    {
      this.hash := hash;
      agents, tokens := map[], map[];
    }

    method CreateAgent(id: string, token: string, name: string, ip: string, now: int) returns (err: Option<Error>)
      modifies this
      ensures match Created(old(Tables()), hash, id, token, name, ip, now)
              case Ok(db) => err == None && Tables() == db
              case Err(e) => err == Some(e) && Tables() == old(Tables())
    {
      if id in agents { return Some(Duplicate); }
      var was := agents;
      agents := agents[id := Agent(name, ip, "pending", "", "", "", now, 0)];
      if hash(token) in tokens {
        agents := was;  // rolled back
        return Some(Duplicate);
      }
      tokens := tokens[hash(token) := Token(id, now + TOKEN_LIFETIME, false)];
      return None;
    }

    method ConsumeEnrollToken(token: string, now: int) returns (res: Result<string, Error>)
      modifies this
      ensures (Tables(), res) == Consumed(old(Tables()), hash, token, now)
    {
      var h := hash(token);
      if h !in tokens { return Err(InvalidToken); }
      var row := tokens[h];
      if row.used { return Err(AlreadyUsed); }
      if now > row.expiresAt { return Err(TokenExpired); }
      tokens := tokens[h := row.(used := true)];
      return Ok(row.agentId);
    }

    method EnrollAgent(id: string, secret: string, now: int)
      modifies this
      ensures Tables() == Enrolled(old(Tables()), hash, id, secret, now)
    {
      if id in agents {
        agents := agents[id := agents[id].(secretHash := hash(secret), status := "online", lastSeen := now)];
      }
    }

    method AgentIDBySecret(secret: string) returns (res: Result<string, Error>)
      ensures match res
              case Ok(id) => Authenticates(Tables(), hash, secret, id)
              case Err(e) => e == UnknownSecret && forall id :: !Authenticates(Tables(), hash, secret, id)
    {
      var rows := agents.Keys;
      while rows != {}
        invariant rows <= agents.Keys
        invariant forall id :: id in agents && id !in rows ==> agents[id].secretHash != hash(secret)
        decreases rows
      {
        var id :| id in rows;
        if agents[id].secretHash == hash(secret) { return Ok(id); }
        rows := rows - {id};
      }
      return Err(UnknownSecret);
    }

    method Touch(id: string, ip: string, hostname: string, os: string, now: int)
      modifies this
      ensures Tables() == Touched(old(Tables()), id, ip, hostname, os, now)
    {
      if id in agents {
        var row := agents[id];
        agents := agents[id := row.(lastSeen := now, status := "online", hostname := hostname, os := os, ip := ip)];
      }
    }

    method SetStatus(id: string, status: string)
      modifies this
      ensures Tables() == StatusSet(old(Tables()), id, status)
    {
      if id in agents {
        agents := agents[id := agents[id].(status := status)];
      }
    }

    method DeleteAgent(id: string)
      modifies this
      ensures Tables() == Deleted(old(Tables()), id)
    {
      tokens := map h | h in tokens && tokens[h].agentId != id :: tokens[h];
      agents := agents - {id};
    }
  }
}
