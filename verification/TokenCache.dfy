/** The cache of verdicts on authentication tokens: fixed arrays of accepted and of rejected
    tokens, with timeouts and eviction. */
module TokenCache {
  import opened Wrappers

  type Token = string

  const TIMEOUT_VALID := 1800
  const TIMEOUT_INVALID := 60
  const NODES := 256
  const INVALIDS := 16
  const TOKEN_MAX := 1023
  const GUEST := 0

  /** What a token gives access to. */
  datatype Answer = Answer(tenants: seq<nat>, level: nat)

  /** An entry of either array. Hash 0 marks an unused one. */
  datatype Node = Node(token: Token, hash: nat, lastref: nat, ctime: nat, answer: Answer)

  /** The last verdict stored for a token. */
  datatype Verdict = Verdict(valid: bool, answer: Answer, time: nat)

  const REJECTED := Answer([], GUEST)
  const CLEAR := Node([], 0, 0, 0, REJECTED)

  predicate Live(n: Node) {
    n.hash != 0
  }

  predicate Expired(n: Node, timeout: nat, now: nat) {
    n.ctime + timeout <= now
  }

  predicate Free(n: Node, timeout: nat, now: nat) {
    !Live(n) || Expired(n, timeout, now)
  }

  // ---- The cache as a value ----

  /** Only the first count entries of good are in use. */
  datatype State = State(good: seq<Node>, bad: seq<Node>, count: nat, lastExpire: nat)

  predicate Shaped(s: State) {
    |s.good| == NODES && |s.bad| == INVALIDS && s.count <= NODES
  }

  /** Entries past their time are cleared. */
  function Purged(s: seq<Node>, n: nat, timeout: nat, now: nat): (r: seq<Node>)
    ensures |r| == |s|
  {
    seq(|s|, i requires 0 <= i < |s| => if i < n && Expired(s[i], timeout, now) then CLEAR else s[i])
  }

  /** Entries of a hash are cleared. */
  function Banned(s: seq<Node>, n: nat, hash: nat): (r: seq<Node>)
    ensures |r| == |s|
  {
    seq(|s|, i requires 0 <= i < |s| => if i < n && s[i].hash == hash then CLEAR else s[i])
  }

  /** The first of n entries for a token, or n. */
  function FindToken(s: seq<Node>, n: nat, hash: nat, token: Token, k: nat): (i: nat)
    requires k <= n <= |s|
    ensures k <= i <= n
    ensures i < n ==> s[i].hash == hash && s[i].token == token
    ensures forall j :: k <= j < i ==> s[j].hash != hash || s[j].token != token
    decreases n - k
  {
    if k == n || (s[k].hash == hash && s[k].token == token) then k else FindToken(s, n, hash, token, k + 1)
  }

  /** tokencache_expire: at most once a minute. */
  function Swept(s: State, now: nat): State {
    if now < s.lastExpire + 60 then s
    else s.(good := Purged(s.good, s.count, TIMEOUT_VALID, now),
            bad := Purged(s.bad, INVALIDS, TIMEOUT_INVALID, now), lastExpire := now)
  }

  /** tokencache_lookup. The sweep after a hit reads the clock again. */
  function Looked(s: State, hash: Token -> nat, token: Token, now: nat, swept: nat): (r: (State, Option<Answer>))
    requires Shaped(s)
    ensures Shaped(r.0)
  {
    var i := FindToken(s.bad, INVALIDS, hash(token), token, 0);
    var j := FindToken(s.good, s.count, hash(token), token, 0);
    if i < INVALIDS && !Expired(s.bad[i], TIMEOUT_INVALID, now) then
      (Swept(s.(bad := s.bad[i := s.bad[i].(lastref := now)]), swept), Some(s.bad[i].answer))
    else if j == s.count then (s, None)
    else if !Expired(s.good[j], TIMEOUT_VALID, now) then
      (Swept(s.(good := s.good[j := s.good[j].(lastref := now)]), swept), Some(s.good[j].answer))
    else (s.(good := s.good[j := CLEAR]), None)
  }

  /** Which entry is overwritten: the scan from k on, with the one referred to longest ago so far. */
  function Victim(s: seq<Node>, timeout: nat, now: nat, random: nat, k: nat, oldest: nat, into: Option<nat>): nat
    requires k <= |s| && s != []
    decreases |s| - k
  {
    if k == |s| then (if into.Some? then into.value else random % |s|)
    else if Free(s[k], timeout, now) then k
    else if s[k].lastref < oldest then Victim(s, timeout, now, random, k + 1, s[k].lastref, Some(k))
    else Victim(s, timeout, now, random, k + 1, oldest, into)
  }

  /** What the scan is for: the first free entry; failing that the first of those referred to
      longest ago, if that was before now; failing that any. */
  ghost predicate IsVictim(s: seq<Node>, timeout: nat, now: nat, random: nat, p: nat) {
    p < |s| &&
    if exists i :: 0 <= i < |s| && Free(s[i], timeout, now) then
      Free(s[p], timeout, now) && forall i :: 0 <= i < p ==> !Free(s[i], timeout, now)
    else if exists i :: 0 <= i < |s| && s[i].lastref < now then
      && (forall i :: 0 <= i < |s| ==> s[p].lastref <= s[i].lastref)
      && (forall i :: 0 <= i < p ==> s[p].lastref < s[i].lastref)
    else p == random % |s|
  }

  lemma {:induction false} VictimFrom(s: seq<Node>, timeout: nat, now: nat, random: nat, k: nat, oldest: nat, into: Option<nat>)
    requires k <= |s| && s != [] && (forall i :: 0 <= i < k ==> !Free(s[i], timeout, now) && oldest <= s[i].lastref)
    requires match into
      case None => oldest == now
      case Some(p) => p < k && s[p].lastref == oldest < now && forall i :: 0 <= i < p ==> oldest < s[i].lastref
    ensures IsVictim(s, timeout, now, random, Victim(s, timeout, now, random, k, oldest, into))
    decreases |s| - k
  {
    if k < |s| && !Free(s[k], timeout, now) {
      if s[k].lastref < oldest {
        VictimFrom(s, timeout, now, random, k + 1, s[k].lastref, Some(k));
      } else {
        VictimFrom(s, timeout, now, random, k + 1, oldest, into);
      }
    }
  }

  lemma VictimIs(s: seq<Node>, timeout: nat, now: nat, random: nat)
    requires s != []
    ensures IsVictim(s, timeout, now, random, Victim(s, timeout, now, random, 0, now, None))
  {
    VictimFrom(s, timeout, now, random, 0, now, None);
  }

  function Entered(token: Token, hash: nat, answer: Answer, now: nat): Node {
    Node(if |token| <= TOKEN_MAX then token else token[..TOKEN_MAX], hash, now, now, answer)
  }

  /** tokencache_store_invalid. */
  function StoredInvalid(s: State, hash: Token -> nat, token: Token, now: nat, random: nat): (r: State)
    requires Shaped(s)
    ensures Shaped(r)
  {
    var p := Victim(s.bad, TIMEOUT_INVALID, now, random, 0, now, None);
    VictimIs(s.bad, TIMEOUT_INVALID, now, random);
    s.(bad := s.bad[p := Entered(token, hash(token), REJECTED, now)], good := Banned(s.good, s.count, hash(token)))
  }

  /** tokencache_store_valid. Cleared entries are used again only once all were used. */
  function StoredValid(s: State, hash: Token -> nat, token: Token, answer: Answer, now: nat, random: nat): (r: State)
    requires Shaped(s)
    ensures Shaped(r)
  {
    var p := if s.count < NODES then s.count else Victim(s.good, TIMEOUT_VALID, now, random, 0, now, None);
    VictimIs(s.good, TIMEOUT_VALID, now, random);
    s.(good := s.good[p := Entered(token, hash(token), answer, now)], bad := Banned(s.bad, INVALIDS, hash(token)),
       count := if s.count < NODES then s.count + 1 else s.count)
  }

  // ---- The invariant ----

  /** An accepted token's entry holds the last verdict on it. */
  predicate Accepted(n: Node, hash: Token -> nat, latest: map<Token, Verdict>) {
    Live(n) ==> n.hash == hash(n.token) && n.token in latest && latest[n.token] == Verdict(true, n.answer, n.ctime)
  }

  /** A rejected token's entry may be older than the last verdict on it, which is the same. */
  predicate Rejected(n: Node, hash: Token -> nat, latest: map<Token, Verdict>) {
    Live(n) ==>
      && n.hash == hash(n.token) && n.answer == REJECTED && n.token in latest
      && latest[n.token] == Verdict(false, REJECTED, latest[n.token].time) && n.ctime <= latest[n.token].time
  }

  /** No hash is held in both arrays. */
  predicate Apart(good: seq<Node>, bad: seq<Node>) {
    forall i, j :: 0 <= i < |good| && 0 <= j < |bad| && Live(good[i]) ==> good[i].hash != bad[j].hash
  }

  predicate Unique(good: seq<Node>) {
    forall i, j :: 0 <= i < j < |good| && Live(good[i]) && Live(good[j]) ==> good[i].token != good[j].token
  }

  /** Of the entries for one token, the first is the newest. */
  predicate NewestFirst(bad: seq<Node>) {
    forall i, j :: 0 <= i < j < |bad| && Live(bad[i]) && Live(bad[j]) && bad[i].token == bad[j].token ==>
      bad[i].ctime > bad[j].ctime
  }

  ghost predicate Inv(s: State, hash: Token -> nat, latest: map<Token, Verdict>) {
    && Shaped(s)
    && (forall t :: hash(t) != 0)
    && (forall k :: s.count <= k < NODES ==> !Live(s.good[k]))
    && (forall k :: 0 <= k < NODES ==> Accepted(s.good[k], hash, latest))
    && (forall k :: 0 <= k < INVALIDS ==> Rejected(s.bad[k], hash, latest))
    && Apart(s.good, s.bad) && Unique(s.good) && NewestFirst(s.bad)
  }

  /** What a lookup that yields nothing leaves: the token may be stored again. */
  predicate Missed(s: State, token: Token, now: nat) {
    && (forall k :: 0 <= k < |s.good| && Live(s.good[k]) ==> s.good[k].token != token)
    && (forall k :: 0 <= k < |s.bad| && Live(s.bad[k]) && s.bad[k].token == token ==> Expired(s.bad[k], TIMEOUT_INVALID, now))
  }

  function Timeout(v: Verdict): nat {
    if v.valid then 1800 else 60
  }

  lemma SweptKeeps(s: State, hash: Token -> nat, latest: map<Token, Verdict>, now: nat)
    requires Inv(s, hash, latest)
    ensures Inv(Swept(s, now), hash, latest)
  {
  }

  /** Referring to an entry, or clearing one, keeps the rest as it is. */
  lemma TouchedKeeps(s: State, hash: Token -> nat, latest: map<Token, Verdict>, i: nat, now: nat)
    requires Inv(s, hash, latest)
    ensures i < INVALIDS ==> Inv(s.(bad := s.bad[i := s.bad[i].(lastref := now)]), hash, latest)
    ensures i < NODES ==> Inv(s.(good := s.good[i := s.good[i].(lastref := now)]), hash, latest)
    ensures i < NODES ==> Inv(s.(good := s.good[i := CLEAR]), hash, latest)
  {
  }

  lemma NoneBad(s: State, hash: Token -> nat, latest: map<Token, Verdict>, token: Token, now: nat)
    requires Inv(s, hash, latest)
    requires var i := FindToken(s.bad, INVALIDS, hash(token), token, 0); i < INVALIDS ==> Expired(s.bad[i], TIMEOUT_INVALID, now)
    ensures forall k :: 0 <= k < INVALIDS && Live(s.bad[k]) && s.bad[k].token == token ==> Expired(s.bad[k], TIMEOUT_INVALID, now)
  {
    hide Apart, Unique, Accepted;
    var i := FindToken(s.bad, INVALIDS, hash(token), token, 0);
    forall k | 0 <= k < INVALIDS && Live(s.bad[k]) && s.bad[k].token == token ensures Expired(s.bad[k], TIMEOUT_INVALID, now) {
      assert Rejected(s.bad[k], hash, latest);
      assert i <= k && Live(s.bad[i]);
    }
  }

  lemma OneGood(s: State, hash: Token -> nat, latest: map<Token, Verdict>, token: Token)
    requires Inv(s, hash, latest)
    ensures forall k :: 0 <= k < NODES && Live(s.good[k]) && s.good[k].token == token ==>
      k == FindToken(s.good, s.count, hash(token), token, 0) < s.count
  {
    hide Apart, NewestFirst, Rejected;
    forall k | 0 <= k < NODES && Live(s.good[k]) && s.good[k].token == token
      ensures k == FindToken(s.good, s.count, hash(token), token, 0) < s.count
    {
      assert Accepted(s.good[k], hash, latest);
    }
  }

  lemma NoneFound(s: State, hash: Token -> nat, latest: map<Token, Verdict>, token: Token, now: nat, swept: nat)
    requires Inv(s, hash, latest)
    requires Looked(s, hash, token, now, swept).1.None?
    ensures Missed(Looked(s, hash, token, now, swept).0, token, now)
  {
    NoneBad(s, hash, latest, token, now);
    OneGood(s, hash, latest, token);
    hide Apart, Unique, NewestFirst, Accepted, Rejected, Swept;
  }

  lemma FoundIsLatest(s: State, hash: Token -> nat, latest: map<Token, Verdict>, token: Token, now: nat, swept: nat)
    requires Inv(s, hash, latest)
    requires Looked(s, hash, token, now, swept).1.Some?
    ensures token in latest && Looked(s, hash, token, now, swept).1.value == latest[token].answer
    ensures now < latest[token].time + Timeout(latest[token])
  {
    hide Apart, Unique, NewestFirst, Swept;
    var i := FindToken(s.bad, INVALIDS, hash(token), token, 0);
    var j := FindToken(s.good, s.count, hash(token), token, 0);
    if i < INVALIDS && !Expired(s.bad[i], TIMEOUT_INVALID, now) {
      assert Rejected(s.bad[i], hash, latest);
    } else {
      assert Accepted(s.good[j], hash, latest);
    }
  }

  lemma LookedInv(s: State, hash: Token -> nat, latest: map<Token, Verdict>, token: Token, now: nat, swept: nat)
    requires Inv(s, hash, latest)
    ensures Inv(Looked(s, hash, token, now, swept).0, hash, latest)
  {
    assert Shaped(s);
    hide Inv, Swept;
    var i := FindToken(s.bad, INVALIDS, hash(token), token, 0);
    var j := FindToken(s.good, s.count, hash(token), token, 0);
    if i < INVALIDS && !Expired(s.bad[i], TIMEOUT_INVALID, now) {
      TouchedKeeps(s, hash, latest, i, now);
      SweptKeeps(s.(bad := s.bad[i := s.bad[i].(lastref := now)]), hash, latest, swept);
    } else if j < s.count {
      TouchedKeeps(s, hash, latest, j, now);
      if !Expired(s.good[j], TIMEOUT_VALID, now) {
        SweptKeeps(s.(good := s.good[j := s.good[j].(lastref := now)]), hash, latest, swept);
      }
    }
  }

  /** A lookup keeps the invariant. It yields nothing, or the last verdict on the token, whose
      time is not up. */
  lemma LookedKeeps(s: State, hash: Token -> nat, latest: map<Token, Verdict>, token: Token, now: nat, swept: nat)
    requires Inv(s, hash, latest)
    ensures var (s', hit) := Looked(s, hash, token, now, swept);
      && Inv(s', hash, latest)
      && (hit.Some? ==> token in latest && hit.value == latest[token].answer && now < latest[token].time + Timeout(latest[token]))
      && (hit.None? ==> Missed(s', token, now))
  {
    assert Shaped(s);
    LookedInv(s, hash, latest, token, now, swept);
    hide Inv, Looked, Missed;
    if Looked(s, hash, token, now, swept).1.Some? {
      FoundIsLatest(s, hash, latest, token, now, swept);
    } else {
      NoneFound(s, hash, latest, token, now, swept);
    }
  }

  lemma StoredInvalidKeeps(s: State, hash: Token -> nat, latest: map<Token, Verdict>, token: Token, now: nat, random: nat)
    requires Inv(s, hash, latest) && |token| <= TOKEN_MAX && Missed(s, token, now)
    ensures Inv(StoredInvalid(s, hash, token, now, random), hash, latest[token := Verdict(false, REJECTED, now)])
  {
    VictimIs(s.bad, TIMEOUT_INVALID, now, random);
  }

  lemma StoredValidKeeps(s: State, hash: Token -> nat, latest: map<Token, Verdict>, token: Token, answer: Answer, now: nat, random: nat)
    requires Inv(s, hash, latest) && |token| <= TOKEN_MAX && Missed(s, token, now)
    ensures Inv(StoredValid(s, hash, token, answer, now, random), hash, latest[token := Verdict(true, answer, now)])
  {
    VictimIs(s.good, TIMEOUT_VALID, now, random);
  }

  // ---- Runs of requests ----

  /** One request: the token, what the identity service says of it if asked (nothing for a
      rejected token), and the times of the lookup, of its sweep and of the store. */
  datatype Request = Request(token: Token, reply: Option<Answer>, asked: nat, swept: nat, stored: nat, random: nat)

  /** Look up first; ask and store only if that yields nothing. */
  function Handled(s: State, hash: Token -> nat, r: Request): (h: (State, Option<Answer>))
    requires Shaped(s)
    ensures Shaped(h.0)
  {
    hide Looked, StoredInvalid, StoredValid;
    var (s', hit) := Looked(s, hash, r.token, r.asked, r.swept);
    if hit.Some? then (s', hit)
    else
      (match r.reply
       case None => StoredInvalid(s', hash, r.token, r.stored, r.random)
       case Some(answer) => StoredValid(s', hash, r.token, answer, r.stored, r.random), None)
  }

  function Learned(latest: map<Token, Verdict>, r: Request): map<Token, Verdict> {
    latest[r.token := if r.reply.Some? then Verdict(true, r.reply.value, r.stored) else Verdict(false, REJECTED, r.stored)]
  }

  predicate Proper(r: Request) {
    |r.token| <= 1023 && r.asked <= r.stored
  }

  /** The cache and the verdicts stored after a run of requests. */
  function After(rs: seq<Request>, hash: Token -> nat, start: nat): (r: (State, map<Token, Verdict>))
    ensures Shaped(r.0)
  {
    hide Handled, Learned;
    if rs == [] then (State(seq(NODES, _ => CLEAR), seq(INVALIDS, _ => CLEAR), 0, start), map[])
    else
      var r := rs[|rs| - 1];
      var (s, latest) := After(rs[..|rs| - 1], hash, start);
      var (s', hit) := Handled(s, hash, r);
      (s', if hit.Some? then latest else Learned(latest, r))
  }

  lemma HandledKeeps(s: State, hash: Token -> nat, latest: map<Token, Verdict>, r: Request)
    requires Inv(s, hash, latest) && Proper(r)
    ensures var (s', hit) := Handled(s, hash, r);
      && Inv(s', hash, if hit.Some? then latest else Learned(latest, r))
      && (hit.Some? ==> r.token in latest && hit.value == latest[r.token].answer
                        && r.asked < latest[r.token].time + Timeout(latest[r.token]))
  {
    assert Shaped(s);
    hide Inv, Missed, Looked, StoredInvalid, StoredValid;
    LookedKeeps(s, hash, latest, r.token, r.asked, r.swept);
    var (s', hit) := Looked(s, hash, r.token, r.asked, r.swept);
    if hit.None? {
      StillMissed(s', r);
      if r.reply.None? {
        StoredInvalidKeeps(s', hash, latest, r.token, r.stored, r.random);
      } else {
        StoredValidKeeps(s', hash, latest, r.token, r.reply.value, r.stored, r.random);
      }
    }
  }

  lemma StillMissed(s: State, r: Request)
    requires Missed(s, r.token, r.asked) && Proper(r)
    ensures Missed(s, r.token, r.stored)
  {
  }

  /** Over any run of requests, whatever the hash and whatever collides, no hash is in both
      arrays, and the next request is answered from the cache with the last verdict stored for
      its token, within that verdict's time, or not at all. */
  lemma {:induction false} RunKeeps(rs: seq<Request>, hash: Token -> nat, start: nat, next: Request)
    requires (forall t :: hash(t) != 0) && (forall r :: r in rs ==> Proper(r)) && Proper(next)
    ensures var (s, latest) := After(rs, hash, start);
      var hit := Handled(s, hash, next).1;
      && Inv(s, hash, latest)
      && (hit.Some? ==> next.token in latest && hit.value == latest[next.token].answer
                        && next.asked < latest[next.token].time + Timeout(latest[next.token]))
  {
    var (s, latest) := After(rs, hash, start);
    if rs != [] {
      var n := |rs| - 1;
      hide Inv, Handled;
      RunKeeps(rs[..n], hash, start, rs[n]);
      var before := After(rs[..n], hash, start);
      HandledKeeps(before.0, hash, before.1, rs[n]);
    }
    HandledKeeps(s, hash, latest, next);
  }

  // ---- What was stored is found ----

  /** An entry that stands for a verdict, or for a later one of the same kind. */
  predicate Entry(n: Node, hash: Token -> nat, token: Token, v: Verdict) {
    n.hash == hash(token) && n.token == token && n.answer == v.answer && n.ctime >= v.time
  }

  ghost predicate Holds(s: State, hash: Token -> nat, token: Token, v: Verdict)
    requires Shaped(s)
  {
    if v.valid then exists j :: 0 <= j < s.count && Entry(s.good[j], hash, token, v)
    else exists i :: 0 <= i < INVALIDS && Entry(s.bad[i], hash, token, v)
  }

  predicate InTime(v: Verdict, now: nat) {
    now < v.time + Timeout(v)
  }

  lemma HeldIsFound(s: State, hash: Token -> nat, latest: map<Token, Verdict>, token: Token, v: Verdict, now: nat, swept: nat)
    requires Inv(s, hash, latest) && Holds(s, hash, token, v) && InTime(v, now)
    ensures Looked(s, hash, token, now, swept).1 == Some(v.answer)
  {
    hide Swept, Apart, Unique, NewestFirst, Accepted, Rejected;
    if v.valid {
      var k :| 0 <= k < s.count && Entry(s.good[k], hash, token, v);
      HeldGood(s, hash, latest, token, k);
    } else {
      var k :| 0 <= k < INVALIDS && Entry(s.bad[k], hash, token, v);
      HeldBad(s, hash, latest, token, k);
    }
  }

  lemma HeldGood(s: State, hash: Token -> nat, latest: map<Token, Verdict>, token: Token, k: nat)
    requires Inv(s, hash, latest) && k < s.count && s.good[k].hash == hash(token) && s.good[k].token == token
    ensures FindToken(s.bad, INVALIDS, hash(token), token, 0) == INVALIDS
    ensures FindToken(s.good, s.count, hash(token), token, 0) == k
  {
    hide NewestFirst, Accepted, Rejected;
    assert Live(s.good[k]);
  }

  lemma HeldBad(s: State, hash: Token -> nat, latest: map<Token, Verdict>, token: Token, k: nat)
    requires Inv(s, hash, latest) && k < INVALIDS && s.bad[k].hash == hash(token) && s.bad[k].token == token
    ensures var i := FindToken(s.bad, INVALIDS, hash(token), token, 0);
      i < INVALIDS && s.bad[i].answer == REJECTED == s.bad[k].answer && s.bad[i].ctime >= s.bad[k].ctime
  {
    hide Apart, Unique, Accepted;
    var i := FindToken(s.bad, INVALIDS, hash(token), token, 0);
    assert i <= k && Rejected(s.bad[i], hash, latest) && Rejected(s.bad[k], hash, latest);
    assert Live(s.bad[i]) && Live(s.bad[k]);
  }

  lemma SweptHolds(s: State, hash: Token -> nat, token: Token, v: Verdict, now: nat)
    requires Shaped(s) && Holds(s, hash, token, v) && InTime(v, now)
    ensures Holds(Swept(s, now), hash, token, v)
  {
    var s' := Swept(s, now);
    if v.valid {
      var k :| 0 <= k < s.count && Entry(s.good[k], hash, token, v);
      assert Entry(s'.good[k], hash, token, v);
    } else {
      var k :| 0 <= k < INVALIDS && Entry(s.bad[k], hash, token, v);
      assert Entry(s'.bad[k], hash, token, v);
    }
  }

  /** Referring to an entry, or clearing one that is past its time, does not touch the verdict. */
  lemma TouchedHolds(s: State, hash: Token -> nat, token: Token, v: Verdict, i: nat, now: nat)
    requires Shaped(s) && Holds(s, hash, token, v) && InTime(v, now)
    ensures i < INVALIDS ==> Holds(s.(bad := s.bad[i := s.bad[i].(lastref := now)]), hash, token, v)
    ensures i < NODES ==> Holds(s.(good := s.good[i := s.good[i].(lastref := now)]), hash, token, v)
    ensures i < NODES && Expired(s.good[i], TIMEOUT_VALID, now) ==> Holds(s.(good := s.good[i := CLEAR]), hash, token, v)
  {
    if v.valid {
      var k :| 0 <= k < s.count && Entry(s.good[k], hash, token, v);
      if i < NODES {
        assert Entry(s.good[i := s.good[i].(lastref := now)][k], hash, token, v);
        if Expired(s.good[i], TIMEOUT_VALID, now) {
          assert Entry(s.good[i := CLEAR][k], hash, token, v);
        }
      }
    } else {
      var k :| 0 <= k < INVALIDS && Entry(s.bad[k], hash, token, v);
      if i < INVALIDS {
        assert Entry(s.bad[i := s.bad[i].(lastref := now)][k], hash, token, v);
      }
    }
  }

  lemma LookedHolds(s: State, hash: Token -> nat, token: Token, v: Verdict, other: Token, now: nat, swept: nat)
    requires Shaped(s) && Holds(s, hash, token, v) && InTime(v, now) && InTime(v, swept)
    ensures Holds(Looked(s, hash, other, now, swept).0, hash, token, v)
  {
    hide Holds, Swept, InTime;
    var i := FindToken(s.bad, INVALIDS, hash(other), other, 0);
    var j := FindToken(s.good, s.count, hash(other), other, 0);
    if i < INVALIDS && !Expired(s.bad[i], TIMEOUT_INVALID, now) {
      TouchedHolds(s, hash, token, v, i, now);
      SweptHolds(s.(bad := s.bad[i := s.bad[i].(lastref := now)]), hash, token, v, swept);
    } else if j < s.count {
      TouchedHolds(s, hash, token, v, j, now);
      if !Expired(s.good[j], TIMEOUT_VALID, now) {
        SweptHolds(s.(good := s.good[j := s.good[j].(lastref := now)]), hash, token, v, swept);
      }
    }
  }

  lemma StoredInvalidHolds(s: State, hash: Token -> nat, token: Token, stored: nat, random: nat)
    requires Shaped(s) && |token| <= TOKEN_MAX
    ensures Holds(StoredInvalid(s, hash, token, stored, random), hash, token, Verdict(false, REJECTED, stored))
  {
    VictimIs(s.bad, TIMEOUT_INVALID, stored, random);
    var p := Victim(s.bad, TIMEOUT_INVALID, stored, random, 0, stored, None);
    assert Entry(StoredInvalid(s, hash, token, stored, random).bad[p], hash, token, Verdict(false, REJECTED, stored));
  }

  lemma StoredValidHolds(s: State, hash: Token -> nat, token: Token, answer: Answer, stored: nat, random: nat)
    requires Shaped(s) && |token| <= TOKEN_MAX
    ensures Holds(StoredValid(s, hash, token, answer, stored, random), hash, token, Verdict(true, answer, stored))
  {
    VictimIs(s.good, TIMEOUT_VALID, stored, random);
    var p := if s.count < NODES then s.count else Victim(s.good, TIMEOUT_VALID, stored, random, 0, stored, None);
    assert Entry(StoredValid(s, hash, token, answer, stored, random).good[p], hash, token, Verdict(true, answer, stored));
  }

  /** A lookup of any token at any time, and the time of the sweep that may follow it. */
  datatype Ask = Ask(token: Token, now: nat, swept: nat)

  function AfterLookups(s: State, hash: Token -> nat, asks: seq<Ask>): (r: State)
    requires Shaped(s)
    ensures Shaped(r)
    decreases |asks|
  {
    if asks == [] then s else AfterLookups(Looked(s, hash, asks[0].token, asks[0].now, asks[0].swept).0, hash, asks[1..])
  }

  lemma {:induction false} LookupsHold(s: State, hash: Token -> nat, latest: map<Token, Verdict>, token: Token, v: Verdict, asks: seq<Ask>)
    requires Inv(s, hash, latest) && Holds(s, hash, token, v)
    requires forall a :: a in asks ==> InTime(v, a.now) && InTime(v, a.swept)
    ensures Inv(AfterLookups(s, hash, asks), hash, latest) && Holds(AfterLookups(s, hash, asks), hash, token, v)
    decreases |asks|
  {
    assert Shaped(s);
    hide Inv, Holds, Looked, InTime;
    if asks != [] {
      assert asks[0] in asks && forall a :: a in asks[1..] ==> a in asks;
      LookedInv(s, hash, latest, asks[0].token, asks[0].now, asks[0].swept);
      LookedHolds(s, hash, token, v, asks[0].token, asks[0].now, asks[0].swept);
      LookupsHold(Looked(s, hash, asks[0].token, asks[0].now, asks[0].swept).0, hash, latest, token, v, asks[1..]);
    }
  }

  /** The verdict that a request which is not answered from the cache stores. */
  function Stored(r: Request): Verdict {
    if r.reply.Some? then Verdict(true, r.reply.value, r.stored) else Verdict(false, REJECTED, r.stored)
  }

  /** After any lookups, of whatever tokens, a verdict that was stored still answers, as long as
      nothing else was stored and its time is not up. */
  lemma StoredIsFound(s: State, hash: Token -> nat, latest: map<Token, Verdict>, r: Request, asks: seq<Ask>, now: nat, swept: nat)
    requires Inv(s, hash, latest) && Proper(r) && Handled(s, hash, r).1.None?
    requires InTime(Stored(r), now) && forall a :: a in asks ==> InTime(Stored(r), a.now) && InTime(Stored(r), a.swept)
    ensures Looked(AfterLookups(Handled(s, hash, r).0, hash, asks), hash, r.token, now, swept).1
         == Some(match r.reply case None => Answer([], 0) case Some(answer) => answer)
  {
    assert Shaped(s);
    HandledKeeps(s, hash, latest, r);
    HandledHolds(s, hash, r);
    hide Inv, Holds, Looked, InTime, Handled, Stored, Learned;
    var s' := Handled(s, hash, r).0;
    LookupsHold(s', hash, Learned(latest, r), r.token, Stored(r), asks);
    HeldIsFound(AfterLookups(s', hash, asks), hash, Learned(latest, r), r.token, Stored(r), now, swept);
  }

  lemma HandledHolds(s: State, hash: Token -> nat, r: Request)
    requires Shaped(s) && |r.token| <= TOKEN_MAX && Handled(s, hash, r).1.None?
    ensures Holds(Handled(s, hash, r).0, hash, r.token, Stored(r))
  {
    hide Holds, Looked, StoredInvalid, StoredValid;
    var s' := Looked(s, hash, r.token, r.asked, r.swept).0;
    if r.reply.None? {
      StoredInvalidHolds(s', hash, r.token, r.stored, r.random);
    } else {
      StoredValidHolds(s', hash, r.token, r.reply.value, r.stored, r.random);
    }
  }

  // ---- Tokens that are too long ----

  /** Its entry is of its first 1023 characters, under the hash of all of it. */
  lemma LongEntry(s: State, hash: Token -> nat, r: Request)
    requires Shaped(s) && |r.token| > 1023 && Handled(s, hash, r).1.None?
    ensures var s' := Handled(s, hash, r).0;
      Node(r.token[..1023], hash(r.token), r.stored, r.stored, if r.reply.Some? then r.reply.value else Answer([], 0))
        in if r.reply.Some? then s'.good else s'.bad
  {
    hide Looked;
    var (s1, hit) := Looked(s, hash, r.token, r.asked, r.swept);
    VictimIs(s1.bad, TIMEOUT_INVALID, r.stored, r.random);
    VictimIs(s1.good, TIMEOUT_VALID, r.stored, r.random);
    hide Victim, IsVictim;
    var s' := Handled(s, hash, r).0;
    var n := Node(r.token[..1023], hash(r.token), r.stored, r.stored, if r.reply.Some? then r.reply.value else Answer([], 0));
    if r.reply.Some? {
      var p := if s1.count < NODES then s1.count else Victim(s1.good, TIMEOUT_VALID, r.stored, r.random, 0, r.stored, None);
      assert s'.good[p] == n;
    } else {
      var p := Victim(s1.bad, TIMEOUT_INVALID, r.stored, r.random, 0, r.stored, None);
      assert s'.bad[p] == n;
    }
  }

  predicate AllShort(s: seq<Node>) {
    forall i :: 0 <= i < |s| ==> |s[i].token| <= 1023
  }

  lemma NeverHit(s: State, hash: Token -> nat, token: Token, now: nat, swept: nat)
    requires Shaped(s) && AllShort(s.good) && AllShort(s.bad) && |token| > 1023
    ensures Looked(s, hash, token, now, swept) == (s, None)
  {
    var i := FindToken(s.bad, INVALIDS, hash(token), token, 0);
    var j := FindToken(s.good, s.count, hash(token), token, 0);
  }

  lemma PutShort(s: seq<Node>, p: nat, n: Node)
    requires AllShort(s) && p < |s| && |n.token| <= 1023
    ensures AllShort(s[p := n])
  {
  }

  lemma ClearedShort(s: seq<Node>, n: nat, timeout: nat, hash: nat, now: nat)
    requires AllShort(s)
    ensures AllShort(Purged(s, n, timeout, now)) && AllShort(Banned(s, n, hash))
  {
  }

  lemma LookedShort(s: State, hash: Token -> nat, token: Token, now: nat, swept: nat)
    requires Shaped(s) && AllShort(s.good) && AllShort(s.bad)
    ensures var s' := Looked(s, hash, token, now, swept).0; AllShort(s'.good) && AllShort(s'.bad)
  {
    var i := FindToken(s.bad, INVALIDS, hash(token), token, 0);
    var j := FindToken(s.good, s.count, hash(token), token, 0);
    hide AllShort;
    if i < INVALIDS {
      TouchedShort(s.bad, i, now);
      ClearedShort(s.bad[i := s.bad[i].(lastref := now)], INVALIDS, TIMEOUT_INVALID, 0, swept);
      ClearedShort(s.good, s.count, TIMEOUT_VALID, 0, swept);
    }
    if j < s.count {
      TouchedShort(s.good, j, now);
      PutShort(s.good, j, CLEAR);
      ClearedShort(s.good[j := s.good[j].(lastref := now)], s.count, TIMEOUT_VALID, 0, swept);
      ClearedShort(s.bad, INVALIDS, TIMEOUT_INVALID, 0, swept);
    }
  }

  lemma TouchedShort(s: seq<Node>, i: nat, now: nat)
    requires AllShort(s) && i < |s|
    ensures AllShort(s[i := s[i].(lastref := now)])
  {
    PutShort(s, i, s[i].(lastref := now));
  }

  lemma HandledShort(s: State, hash: Token -> nat, r: Request)
    requires Shaped(s) && AllShort(s.good) && AllShort(s.bad)
    ensures var s' := Handled(s, hash, r).0; AllShort(s'.good) && AllShort(s'.bad)
  {
    hide AllShort, Looked;
    LookedShort(s, hash, r.token, r.asked, r.swept);
    var (s', hit) := Looked(s, hash, r.token, r.asked, r.swept);
    VictimIs(s'.bad, TIMEOUT_INVALID, r.stored, r.random);
    VictimIs(s'.good, TIMEOUT_VALID, r.stored, r.random);
    ClearedShort(s'.good, s'.count, 0, hash(r.token), 0);
    ClearedShort(s'.bad, INVALIDS, 0, hash(r.token), 0);
    if r.reply.None? {
      PutShort(s'.bad, Victim(s'.bad, TIMEOUT_INVALID, r.stored, r.random, 0, r.stored, None), Entered(r.token, hash(r.token), REJECTED, r.stored));
    } else {
      var p := if s'.count < NODES then s'.count else Victim(s'.good, TIMEOUT_VALID, r.stored, r.random, 0, r.stored, None);
      PutShort(s'.good, p, Entered(r.token, hash(r.token), r.reply.value, r.stored));
    }
  }

  lemma {:induction false} RunShort(rs: seq<Request>, hash: Token -> nat, start: nat)
    ensures AllShort(After(rs, hash, start).0.good) && AllShort(After(rs, hash, start).0.bad)
  {
    if rs != [] {
      var n := |rs| - 1;
      hide AllShort, Handled;
      RunShort(rs[..n], hash, start);
      HandledShort(After(rs[..n], hash, start).0, hash, rs[n]);
    }
  }

  /** A token of more than 1023 characters is never answered from the cache, whatever was asked
      and stored before, that token included. */
  lemma LongTokens(rs: seq<Request>, hash: Token -> nat, start: nat, next: Request)
    requires |next.token| > 1023
    ensures Handled(After(rs, hash, start).0, hash, next).1 == None
  {
    RunShort(rs, hash, start);
    hide AllShort, Looked, After;
    NeverHit(After(rs, hash, start).0, hash, next.token, next.asked, next.swept);
  }

  // ---- Which entry makes room ----

  /** When each token was last asked for with success, or stored. */
  function Uses(rs: seq<Request>, hash: Token -> nat, start: nat): map<Token, nat> {
    if rs == [] then map[]
    else
      var r := rs[|rs| - 1];
      var hit := Handled(After(rs[..|rs| - 1], hash, start).0, hash, r).1;
      Uses(rs[..|rs| - 1], hash, start)[r.token := if hit.Some? then r.asked else r.stored]
  }

  /** An entry with the last verdict on its token was last referred to when the token was used. */
  predicate UsedAt(n: Node, latest: map<Token, Verdict>, used: map<Token, nat>) {
    Live(n) && n.token in latest && latest[n.token].time == n.ctime ==> n.token in used && used[n.token] == n.lastref
  }

  ghost predicate AllUsed(s: State, latest: map<Token, Verdict>, used: map<Token, nat>) {
    Shaped(s) && (forall k :: 0 <= k < NODES ==> UsedAt(s.good[k], latest, used))
    && (forall k :: 0 <= k < INVALIDS ==> UsedAt(s.bad[k], latest, used))
  }

  lemma SweptUsed(s: State, latest: map<Token, Verdict>, used: map<Token, nat>, now: nat)
    requires AllUsed(s, latest, used)
    ensures AllUsed(Swept(s, now), latest, used)
  {
  }

  lemma BadHitUsed(s: State, hash: Token -> nat, latest: map<Token, Verdict>, used: map<Token, nat>, token: Token, i: nat, now: nat)
    requires Inv(s, hash, latest) && AllUsed(s, latest, used)
    requires i == FindToken(s.bad, INVALIDS, hash(token), token, 0) < INVALIDS
    ensures AllUsed(s.(bad := s.bad[i := s.bad[i].(lastref := now)]), latest, used[token := now])
  {
    hide Unique;
    var bad := s.bad[i := s.bad[i].(lastref := now)];
    assert Rejected(s.bad[i], hash, latest) && Live(s.bad[i]);
    forall k | 0 <= k < INVALIDS ensures UsedAt(bad[k], latest, used[token := now]) {
      assert Rejected(s.bad[k], hash, latest);
      assert UsedAt(s.bad[k], latest, used);
      if k != i && Live(s.bad[k]) && s.bad[k].token == token {
        assert i < k && s.bad[i].ctime > s.bad[k].ctime;
      }
    }
    forall k | 0 <= k < NODES ensures UsedAt(s.good[k], latest, used[token := now]) {
      assert UsedAt(s.good[k], latest, used);
      assert Accepted(s.good[k], hash, latest);
    }
  }

  lemma GoodHitUsed(s: State, hash: Token -> nat, latest: map<Token, Verdict>, used: map<Token, nat>, token: Token, j: nat, now: nat)
    requires Inv(s, hash, latest) && AllUsed(s, latest, used)
    requires j == FindToken(s.good, s.count, hash(token), token, 0) < s.count
    ensures AllUsed(s.(good := s.good[j := s.good[j].(lastref := now)]), latest, used[token := now])
  {
    hide NewestFirst;
    var good := s.good[j := s.good[j].(lastref := now)];
    assert Accepted(s.good[j], hash, latest) && Live(s.good[j]);
    forall k | 0 <= k < NODES ensures UsedAt(good[k], latest, used[token := now]) {
      assert UsedAt(s.good[k], latest, used);
    }
    forall k | 0 <= k < INVALIDS ensures UsedAt(s.bad[k], latest, used[token := now]) {
      assert UsedAt(s.bad[k], latest, used);
      assert Rejected(s.bad[k], hash, latest);
    }
  }

  lemma LookedUsed(s: State, hash: Token -> nat, latest: map<Token, Verdict>, used: map<Token, nat>, token: Token, now: nat, swept: nat)
    requires Inv(s, hash, latest) && AllUsed(s, latest, used)
    ensures var (s', hit) := Looked(s, hash, token, now, swept);
      AllUsed(s', latest, if hit.Some? then used[token := now] else used)
  {
    assert Shaped(s);
    hide Inv, AllUsed, Swept;
    var i := FindToken(s.bad, INVALIDS, hash(token), token, 0);
    var j := FindToken(s.good, s.count, hash(token), token, 0);
    if i < INVALIDS && !Expired(s.bad[i], TIMEOUT_INVALID, now) {
      BadHitUsed(s, hash, latest, used, token, i, now);
      SweptUsed(s.(bad := s.bad[i := s.bad[i].(lastref := now)]), latest, used[token := now], swept);
    } else if j < s.count {
      if !Expired(s.good[j], TIMEOUT_VALID, now) {
        GoodHitUsed(s, hash, latest, used, token, j, now);
        SweptUsed(s.(good := s.good[j := s.good[j].(lastref := now)]), latest, used[token := now], swept);
      } else {
        ClearedUsed(s, latest, used, j);
      }
    }
  }

  lemma ClearedUsed(s: State, latest: map<Token, Verdict>, used: map<Token, nat>, j: nat)
    requires AllUsed(s, latest, used) && j < NODES
    ensures AllUsed(s.(good := s.good[j := CLEAR]), latest, used)
  {
  }

  lemma StoredUsed(s: State, hash: Token -> nat, latest: map<Token, Verdict>, used: map<Token, nat>, r: Request)
    requires Inv(s, hash, latest) && AllUsed(s, latest, used) && Proper(r) && Missed(s, r.token, r.stored)
    ensures AllUsed(match r.reply
                    case None => StoredInvalid(s, hash, r.token, r.stored, r.random)
                    case Some(answer) => StoredValid(s, hash, r.token, answer, r.stored, r.random),
                    Learned(latest, r), used[r.token := r.stored])
  {
    hide Apart, Unique, NewestFirst, Accepted, Rejected, Victim;
    forall k | 0 <= k < NODES ensures UsedAt(s.good[k], Learned(latest, r), used[r.token := r.stored]) {
      assert UsedAt(s.good[k], latest, used);
    }
    forall k | 0 <= k < INVALIDS ensures UsedAt(s.bad[k], Learned(latest, r), used[r.token := r.stored]) {
      assert UsedAt(s.bad[k], latest, used);
    }
  }

  lemma {:induction false} RunUses(rs: seq<Request>, hash: Token -> nat, start: nat)
    requires (forall t :: hash(t) != 0) && (forall r :: r in rs ==> Proper(r))
    ensures var (s, latest) := After(rs, hash, start);
      Inv(s, hash, latest) && AllUsed(s, latest, Uses(rs, hash, start))
  {
    if rs != [] {
      var n := |rs| - 1;
      var (s, latest) := After(rs[..n], hash, start);
      hide Inv, AllUsed, Handled, Learned;
      RunUses(rs[..n], hash, start);
      assert Proper(rs[n]);
      HandledKeeps(s, hash, latest, rs[n]);
      HandledUsed(s, hash, latest, Uses(rs[..n], hash, start), rs[n]);
    }
  }

  lemma HandledUsed(s: State, hash: Token -> nat, latest: map<Token, Verdict>, used: map<Token, nat>, r: Request)
    requires Inv(s, hash, latest) && AllUsed(s, latest, used) && Proper(r)
    ensures var (s', hit) := Handled(s, hash, r);
      AllUsed(s', if hit.Some? then latest else Learned(latest, r), used[r.token := if hit.Some? then r.asked else r.stored])
  {
    assert Shaped(s);
    hide Inv, AllUsed, Missed, Looked, StoredInvalid, StoredValid, Learned;
    LookedKeeps(s, hash, latest, r.token, r.asked, r.swept);
    LookedUsed(s, hash, latest, used, r.token, r.asked, r.swept);
    var (s', hit) := Looked(s, hash, r.token, r.asked, r.swept);
    if hit.None? {
      StillMissed(s', r);
      StoredUsed(s', hash, latest, used, r);
    }
  }

  /** What a store of an accepted token finds: all 256 entries in use and none past its half hour. */
  predicate Full(s: State, now: nat) {
    Shaped(s) && s.count == 256 && forall k :: 0 <= k < 256 ==> Live(s.good[k]) && now < s.good[k].ctime + 1800
  }

  /** A full cache makes room by giving up the token that was not used for the longest time, if
      any was used before now, and keeps all others. */
  lemma LeastUsedGoes(rs: seq<Request>, hash: Token -> nat, start: nat, r: Request) returns (p: nat)
    requires (forall t :: hash(t) != 0) && (forall q :: q in rs ==> Proper(q)) && Proper(r) && r.reply.Some?
    requires var (s', hit) := Looked(After(rs, hash, start).0, hash, r.token, r.asked, r.swept);
      hit.None? && Full(s', r.stored) && exists k :: 0 <= k < 256 && s'.good[k].lastref < r.stored
    ensures var s' := Looked(After(rs, hash, start).0, hash, r.token, r.asked, r.swept).0;
      var now := Handled(After(rs, hash, start).0, hash, r).0;
      var used := Uses(rs, hash, start);
      && p < 256 && (forall k :: 0 <= k < 256 ==> s'.good[k].token in used)
      && (forall k :: 0 <= k < 256 ==> used[s'.good[p].token] <= used[s'.good[k].token])
      && now.good[p].token == r.token
      && (forall k :: 0 <= k < 256 && k != p ==> now.good[k] == s'.good[k])
      && (forall k :: 0 <= k < 256 ==> now.good[k].token != s'.good[p].token)
  {
    var (s, latest) := After(rs, hash, start);
    RunUses(rs, hash, start);
    assert Shaped(s);
    LookedKeeps(s, hash, latest, r.token, r.asked, r.swept);
    LookedUsed(s, hash, latest, Uses(rs, hash, start), r.token, r.asked, r.swept);
    p := Evicted(Looked(s, hash, r.token, r.asked, r.swept).0, hash, latest, Uses(rs, hash, start), r);
    hide Inv, AllUsed, Looked, StoredValid, Full;
  }

  lemma Evicted(s: State, hash: Token -> nat, latest: map<Token, Verdict>, used: map<Token, nat>, r: Request) returns (p: nat)
    requires Inv(s, hash, latest) && AllUsed(s, latest, used) && Proper(r) && r.reply.Some? && Missed(s, r.token, r.asked)
    requires Full(s, r.stored) && exists k :: 0 <= k < 256 && s.good[k].lastref < r.stored
    ensures var now := StoredValid(s, hash, r.token, r.reply.value, r.stored, r.random);
      && p < 256 && (forall k :: 0 <= k < 256 ==> s.good[k].token in used)
      && (forall k :: 0 <= k < 256 ==> used[s.good[p].token] <= used[s.good[k].token])
      && now.good[p].token == r.token
      && (forall k :: 0 <= k < 256 && k != p ==> now.good[k] == s.good[k])
      && (forall k :: 0 <= k < 256 ==> now.good[k].token != s.good[p].token)
  {
    VictimIs(s.good, TIMEOUT_VALID, r.stored, r.random);
    p := Victim(s.good, TIMEOUT_VALID, r.stored, r.random, 0, r.stored, None);
    hide Victim, Apart, NewestFirst, Rejected;
    forall k | 0 <= k < 256 ensures s.good[k].token in used && used[s.good[k].token] == s.good[k].lastref {
      assert Accepted(s.good[k], hash, latest) && UsedAt(s.good[k], latest, used);
    }
  }

  /** While fewer than 256 entries are in use, a store takes the next one and disturbs none. */
  lemma RoomLeft(s: State, hash: Token -> nat, token: Token, answer: Answer, now: nat, random: nat)
    requires Shaped(s) && s.count < 256
    ensures var s' := StoredValid(s, hash, token, answer, now, random);
      s'.count == s.count + 1 && forall k :: 0 <= k < 256 && k != s.count ==> s'.good[k] == s.good[k]
  {
  }

  /** A hit sweeps, if the last sweep was a minute ago or more, and a miss does not. */
  lemma HitSweeps(s: State, hash: Token -> nat, token: Token, now: nat, swept: nat)
    requires Shaped(s)
    ensures var (s', hit) := Looked(s, hash, token, now, swept);
      && (hit.None? ==> s'.lastExpire == s.lastExpire)
      && (hit.Some? && swept >= s.lastExpire + 60 ==>
            && s'.lastExpire == swept
            && (forall i :: 0 <= i < s'.count && Live(s'.good[i]) ==> swept < s'.good[i].ctime + 1800)
            && (forall i :: 0 <= i < 16 && Live(s'.bad[i]) ==> swept < s'.bad[i].ctime + 60))
  {
  }

  /** The sweep after a hit: nothing within a minute of the last one; later, all entries in use
      that are past their time go, half an hour for accepted tokens and a minute for rejected
      ones, and no others. */
  lemma SweepClears(s: State, now: nat)
    requires Shaped(s)
    ensures now < s.lastExpire + 60 ==> Swept(s, now) == s
    ensures now >= s.lastExpire + 60 ==>
      var s' := Swept(s, now);
      && s'.lastExpire == now && s'.count == s.count
      && (forall k :: 0 <= k < s.count ==> s'.good[k] == if s.good[k].ctime + 1800 <= now then CLEAR else s.good[k])
      && (forall k :: s.count <= k < 256 ==> s'.good[k] == s.good[k])
      && (forall k :: 0 <= k < 16 ==> s'.bad[k] == if s.bad[k].ctime + 60 <= now then CLEAR else s.bad[k])
  {
  }

  // ---- The cache itself ----

  class Cache {
    const nodes: array<Node>
    const invalids: array<Node>
    const hash: Token -> nat
    var count: nat
    var lastExpire: nat

    ghost predicate Valid()
      reads this
    {
      nodes != invalids && nodes.Length == NODES && invalids.Length == INVALIDS && count <= NODES
    }

    ghost function Now(): (s: State)
      requires Valid()
      reads this, nodes, invalids
      ensures Shaped(s)
    {
      State(nodes[..], invalids[..], count, lastExpire)
    }

    constructor (hash: Token -> nat, now: nat)
      ensures Valid() && this.hash == hash && fresh(nodes) && fresh(invalids)
      ensures Now() == After([], hash, now).0
    {
      nodes := new Node[NODES](_ => CLEAR);
      invalids := new Node[INVALIDS](_ => CLEAR);
      count, lastExpire, this.hash := 0, now, hash;
      new;
      assert nodes[..] == seq(NODES, _ => CLEAR) && invalids[..] == seq(INVALIDS, _ => CLEAR);
    }

    static method ClearExpired(a: array<Node>, n: nat, timeout: nat, now: nat)
      requires n <= a.Length
      modifies a
      ensures a[..] == Purged(old(a[..]), n, timeout, now)
    {
      var i := 0;
      while i < n
        invariant 0 <= i <= n
        invariant a[..] == Purged(old(a[..]), i, timeout, now)
      {
        if a[i].ctime + timeout <= now {
          a[i] := CLEAR;
        }
        i := i + 1;
      }
    }

    static method ClearHash(a: array<Node>, n: nat, hash: nat)
      requires n <= a.Length
      modifies a
      ensures a[..] == Banned(old(a[..]), n, hash)
    {
      var i := 0;
      while i < n
        invariant 0 <= i <= n
        invariant a[..] == Banned(old(a[..]), i, hash)
      {
        if a[i].hash == hash {
          a[i] := CLEAR;
        }
        i := i + 1;
      }
    }

    /** The scan of a lookup: entries of another hash or another token are passed over. */
    static method Find(a: array<Node>, n: nat, hash: nat, token: Token) returns (i: nat)
      requires n <= a.Length
      ensures i == FindToken(a[..], n, hash, token, 0)
    {
      i := 0;
      while i < n && (a[i].hash != hash || a[i].token != token)
        invariant i <= n
        invariant FindToken(a[..], n, hash, token, i) == FindToken(a[..], n, hash, token, 0)
      {
        i := i + 1;
      }
    }

    static method FindSlot(a: array<Node>, timeout: nat, now: nat, random: nat) returns (p: nat)
      requires a.Length > 0
      ensures p == Victim(a[..], timeout, now, random, 0, now, None)
    {
      var oldest := now;
      var into: Option<nat> := None;
      var i := 0;
      while i < a.Length && !(a[i].hash == 0 || a[i].ctime + timeout <= now)
        invariant i <= a.Length
        invariant Victim(a[..], timeout, now, random, i, oldest, into) == Victim(a[..], timeout, now, random, 0, now, None)
      {
        if a[i].lastref < oldest {
          oldest, into := a[i].lastref, Some(i);
        }
        i := i + 1;
      }
      if i < a.Length {
        p := i;
      } else if into.Some? {
        p := into.value;
      } else {
        p := random % a.Length;
      }
    }

    method Expire(now: nat)
      requires Valid()
      modifies this`lastExpire, nodes, invalids
      ensures Valid() && Now() == Swept(old(Now()), now)
    {
      if now >= lastExpire + 60 {
        ClearExpired(invalids, INVALIDS, TIMEOUT_INVALID, now);
        ClearExpired(nodes, count, TIMEOUT_VALID, now);
        lastExpire := now;
      }
    }

    method Lookup(token: Token, now: nat, swept: nat) returns (res: Option<Answer>)
      requires Valid()
      modifies this`lastExpire, nodes, invalids
      ensures Valid() && (Now(), res) == Looked(old(Now()), hash, token, now, swept)
    {
      hide Swept, FindToken;
      res := None;
      var h := hash(token);
      var i := Find(invalids, INVALIDS, h, token);
      if i < INVALIDS && invalids[i].ctime + TIMEOUT_INVALID > now {
        invalids[i] := invalids[i].(lastref := now);
        res := Some(invalids[i].answer);
      } else {
        var j := Find(nodes, count, h, token);
        if j < count {
          if nodes[j].ctime + TIMEOUT_VALID > now {
            nodes[j] := nodes[j].(lastref := now);
            res := Some(nodes[j].answer);
          } else {
            nodes[j] := CLEAR;
          }
        }
      }
      if res.Some? {
        Expire(swept);
      }
    }

    method StoreInvalid(token: Token, now: nat, random: nat)
      requires Valid()
      modifies nodes, invalids
      ensures Valid() && Now() == StoredInvalid(old(Now()), hash, token, now, random)
    {
      VictimIs(invalids[..], TIMEOUT_INVALID, now, random);
      var into := FindSlot(invalids, TIMEOUT_INVALID, now, random);
      invalids[into] := Entered(token, hash(token), REJECTED, now);
      ClearHash(nodes, count, hash(token));
    }

    method StoreValid(token: Token, answer: Answer, now: nat, random: nat)
      requires Valid()
      modifies this`count, nodes, invalids
      ensures Valid() && Now() == StoredValid(old(Now()), hash, token, answer, now, random)
    {
      VictimIs(nodes[..], TIMEOUT_VALID, now, random);
      var into;
      if count < NODES {
        into := count;
        count := count + 1;
      } else {
        into := FindSlot(nodes, TIMEOUT_VALID, now, random);
      }
      nodes[into] := Entered(token, hash(token), answer, now);
      ClearHash(invalids, INVALIDS, hash(token));
    }

    /** The request handler around the cache. The reply is what the identity service says. */
    method Authenticate(r: Request) returns (hit: Option<Answer>)
      requires Valid()
      modifies this`count, this`lastExpire, nodes, invalids
      ensures Valid() && (Now(), hit) == Handled(old(Now()), hash, r)
    {
      hide Looked, StoredInvalid, StoredValid;
      hit := Lookup(r.token, r.asked, r.swept);
      if hit.None? {
        match r.reply {
          case None => StoreInvalid(r.token, r.stored, r.random);
          case Some(answer) => StoreValid(r.token, answer, r.stored, r.random);
        }
      }
    }
  }
}
