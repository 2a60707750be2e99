/** Whole runs of the in-memory limiter: requests on any buckets, with prunes anywhere between them. */
module RateLimitRuns {
  import opened RateLimit

  datatype Op = Ask(bucket: string, policy: Policy, now: int) | Prune(maxAge: int, now: int)

  /** One clock: times never go back, and `m` was last touched by `since`. */
  predicate Timely(ops: seq<Op>, since: int) {
    && (forall i :: 0 <= i < |ops| ==> since <= ops[i].now)
    && (forall i, j :: 0 <= i < j < |ops| ==> ops[i].now <= ops[j].now)
  }

  function Apply(m: Counters, op: Op): (Counters, seq<Verdict>) {
    match op
    case Ask(b, p, now) => var (m', v) := Request(m, b, p, now); (m', [v])
    case Prune(maxAge, now) => (Pruned(m, now - maxAge), [])
  }

  /** The verdicts of the requests, in order, and the counters left behind. */
  function Run(m: Counters, ops: seq<Op>): (Counters, seq<Verdict>)
    decreases |ops|
  {
    if ops == [] then (m, []) else
    var (m', v) := Apply(m, ops[0]);
    var (end, vs) := Run(m', ops[1..]);
    (end, v + vs)
  }

  /** How many requests on `bucket` are granted with a time in `[a, b)`. */
  function GrantsOf(m: Counters, ops: seq<Op>, bucket: string, a: int, b: int): nat
    decreases |ops|
  {
    if ops == [] then 0 else
    var (m', v) := Apply(m, ops[0]);
    GrantsOf(m', ops[1..], bucket, a, b)
    + if ops[0].Ask? && ops[0].bucket == bucket && v[0].allowed && a <= ops[0].now < b then 1 else 0
  }

  /** Every request on `bucket` carries the policy `p`. */
  predicate PolicyOn(ops: seq<Op>, bucket: string, p: Policy) {
    forall i :: 0 <= i < |ops| ==> ops[i].Ask? && ops[i].bucket == bucket ==> ops[i].policy == p
  }

  /** A prune that forgets no bucket of policy `p` before it is as good as new. */
  predicate Harmless(maxAge: int, p: Policy) {
    if p.IsTokenBucket() then (maxAge + 1) * p.limit >= p.window * p.Capacity() else maxAge + 1 >= p.window
  }

  predicate HarmlessOn(ops: seq<Op>, p: Policy) {
    forall i :: 0 <= i < |ops| ==> ops[i].Prune? ==> Harmless(ops[i].maxAge, p)
  }

  const EMPTY := Counters(map[], map[])

  /** `n` requests at time `t`. */
  function Asks(bucket: string, p: Policy, t: int, n: nat): (ops: seq<Op>)
    ensures |ops| == n && forall i :: 0 <= i < n ==> ops[i] == Ask(bucket, p, t)
  {
    seq(n, i => Ask(bucket, p, t))
  }
}
