/** The session table on values: 256 rows of sessions, and the simple map they stand for. */
module Sessions {
  import opened Bytes
  import opened Wrappers

  /** A session. Unique ids and addresses are opaque numbers here. */
  datatype Session = Session(tenantid: nat, hostid: nat, addr: bv32, sessid: bv32, key: seq<bv8>, remote: seq<bv8>,
                             lastcycle: int, expired: bool)

  type Name = (bv32, bv32)

  const BUCKETS := 256

  /** The exclusive or of the four bytes of the two ids' exclusive or. */
  function BucketOf(addr: bv32, sessid: bv32): (b: nat)
    ensures b < BUCKETS
  {
    var sid := sessid ^ addr;
    var b := (sid >> 24) ^ ((sid & 0x00ff0000) >> 16) ^ ((sid & 0x0000ff00) >> 8) ^ (sid & 0xff);
    ByteRange((b & 0xff) as bv8);
    ((b & 0xff) as bv8) as nat
  }

  predicate Matches(s: Session, addr: bv32, sessid: bv32) {
    s.addr == addr && s.sessid == sessid && !s.expired
  }

  /** The first session of this name that is not expired, or the end. */
  function FindIn(row: seq<Session>, addr: bv32, sessid: bv32): (i: nat)
    ensures i <= |row|
    ensures i < |row| ==> Matches(row[i], addr, sessid)
    ensures forall j :: 0 <= j < i ==> !Matches(row[j], addr, sessid)
  {
    if row == [] || Matches(row[0], addr, sessid) then 0 else 1 + FindIn(row[1..], addr, sessid)
  }

  /** A row holds its own bucket's sessions, at most one of each name unexpired. */
  predicate GoodRow(row: seq<Session>, b: nat) {
    && (forall i :: 0 <= i < |row| ==> BucketOf(row[i].addr, row[i].sessid) == b)
    && (forall i, j :: 0 <= i < j < |row| && !row[i].expired ==> !Matches(row[j], row[i].addr, row[i].sessid))
  }

  predicate Good(rows: seq<seq<Session>>) {
    |rows| == BUCKETS && forall b :: 0 <= b < BUCKETS ==> GoodRow(rows[b], b)
  }

  // ---- Operations on rows ----

  /** What a caller hands to session_register, with the time. */
  datatype Login = Login(tenantid: nat, hostid: nat, addr: bv32, sessid: bv32, key: seq<bv8>, remote: seq<bv8>, now: int)

  function NewSession(l: Login): Session {
    Session(l.tenantid, l.hostid, l.addr, l.sessid, l.key, l.remote, l.now, false)
  }

  /** A session that logs in again keeps its tenant and its host. */
  function Renewed(s: Session, l: Login): Session {
    s.(lastcycle := l.now, key := l.key, remote := l.remote)
  }

  function RegisteredRow(row: seq<Session>, l: Login): seq<Session> {
    var i := FindIn(row, l.addr, l.sessid);
    if i < |row| then row[i := Renewed(row[i], l)] else [NewSession(l)] + row
  }

  function Registered(rows: seq<seq<Session>>, l: Login): seq<seq<Session>>
    requires |rows| == BUCKETS
  {
    var b := BucketOf(l.addr, l.sessid);
    rows[b := RegisteredRow(rows[b], l)]
  }

  function Marked(s: Session): Session {
    s.(expired := true)
  }

  /** The tenant's sessions among the first n are marked. */
  function TenantBefore(row: seq<Session>, n: nat, tenantid: nat): (r: seq<Session>)
    ensures |r| == |row|
  {
    seq(|row|, i requires 0 <= i < |row| => if i < n && row[i].tenantid == tenantid then Marked(row[i]) else row[i])
  }

  function TenantRow(row: seq<Session>, tenantid: nat): (r: seq<Session>)
    ensures |r| == |row|
  {
    TenantBefore(row, |row|, tenantid)
  }

  function TenantRemoved(rows: seq<seq<Session>>, tenantid: nat): (r: seq<seq<Session>>)
    ensures |r| == |rows|
  {
    seq(|rows|, b requires 0 <= b < |rows| => TenantRow(rows[b], tenantid))
  }

  predicate Stays(s: Session, cutoff: int) {
    !s.expired && s.lastcycle >= cutoff
  }

  function ExpiredRow(row: seq<Session>, cutoff: int): seq<Session> {
    if row == [] then []
    else (if Stays(row[0], cutoff) then [row[0]] else []) + ExpiredRow(row[1..], cutoff)
  }

  function Expired(rows: seq<seq<Session>>, cutoff: int): (r: seq<seq<Session>>)
    ensures |r| == |rows|
  {
    seq(|rows|, b requires 0 <= b < |rows| => ExpiredRow(rows[b], cutoff))
  }

  // ---- Operations in general ----

  datatype Op = Register(l: Login) | RemoveTenant(tenantid: nat) | Expire(cutoff: int)

  function Step(rows: seq<seq<Session>>, op: Op): (r: seq<seq<Session>>)
    requires |rows| == BUCKETS
    ensures |r| == BUCKETS
  {
    match op
    case Register(l) => Registered(rows, l)
    case RemoveTenant(t) => TenantRemoved(rows, t)
    case Expire(c) => Expired(rows, c)
  }

  // ---- One row ----

  lemma RegisteredGood(row: seq<Session>, l: Login)
    requires GoodRow(row, BucketOf(l.addr, l.sessid))
    ensures GoodRow(RegisteredRow(row, l), BucketOf(l.addr, l.sessid))
  {
    hide BucketOf;
  }

  /** Rows whose sessions match alike are searched alike. */
  lemma SameFind(row: seq<Session>, row': seq<Session>, addr: bv32, sessid: bv32)
    requires |row'| == |row|
    requires forall j :: 0 <= j < |row| ==> Matches(row'[j], addr, sessid) == Matches(row[j], addr, sessid)
    ensures FindIn(row', addr, sessid) == FindIn(row, addr, sessid)
  {
    hide Matches;
    var i, i' := FindIn(row, addr, sessid), FindIn(row', addr, sessid);
    assert i == i';
  }

  lemma RenewedFinds(row: seq<Session>, l: Login, at: nat, addr: bv32, sessid: bv32)
    requires at < |row|
    ensures FindIn(row[at := Renewed(row[at], l)], addr, sessid) == FindIn(row, addr, sessid)
  {
    SameFind(row, row[at := Renewed(row[at], l)], addr, sessid);
  }

  lemma NewFinds(row: seq<Session>, l: Login, addr: bv32, sessid: bv32)
    ensures FindIn([NewSession(l)] + row, addr, sessid) ==
      if (addr, sessid) == (l.addr, l.sessid) then 0 else 1 + FindIn(row, addr, sessid)
  {
    assert ([NewSession(l)] + row)[1..] == row;
  }

  /** After a login its name is found as renewed or new, and every other name as before. */
  lemma RegisteredFinds(row: seq<Session>, l: Login, addr: bv32, sessid: bv32)
    ensures var row' := RegisteredRow(row, l);
      var i, i' := FindIn(row, addr, sessid), FindIn(row', addr, sessid);
      if (addr, sessid) == (l.addr, l.sessid) then
        i' < |row'| && row'[i'] == if i < |row| then Renewed(row[i], l) else NewSession(l)
      else (i < |row| <==> i' < |row'|) && (i < |row| ==> i' < |row'| && row'[i'] == row[i])
  {
    hide NewSession, Renewed;
    var at := FindIn(row, l.addr, l.sessid);
    if at < |row| {
      RenewedFinds(row, l, at, addr, sessid);
    } else {
      NewFinds(row, l, addr, sessid);
    }
  }

  lemma TenantFinds(row: seq<Session>, b: nat, tenantid: nat, addr: bv32, sessid: bv32)
    requires GoodRow(row, b)
    ensures GoodRow(TenantRow(row, tenantid), b)
    ensures var row' := TenantRow(row, tenantid);
      var i, i' := FindIn(row, addr, sessid), FindIn(row', addr, sessid);
      && (i' < |row'| <==> i < |row| && row[i].tenantid != tenantid)
      && (i' < |row'| ==> i < |row| && row'[i'] == row[i])
  {
    hide BucketOf;
    var row' := TenantRow(row, tenantid);
    var i, i' := FindIn(row, addr, sessid), FindIn(row', addr, sessid);
    if i < |row| && row[i].tenantid != tenantid {
      assert Matches(row'[i], addr, sessid);
    }
    if i' < |row'| {
      assert Matches(row[i'], addr, sessid);
    }
  }

  /** What is left are the sessions that stay, in order. */
  lemma {:induction false} ExpiredKeeps(row: seq<Session>, cutoff: int)
    ensures forall s :: s in ExpiredRow(row, cutoff) <==> s in row && Stays(s, cutoff)
  {
    hide Stays;
    if row != [] {
      ExpiredKeeps(row[1..], cutoff);
    }
  }

  // What a walk along the row does: the sessions before i are done with.

  function ExpiredFrom(row: seq<Session>, i: nat, cutoff: int): seq<Session>
    requires i <= |row|
  {
    row[..i] + ExpiredRow(row[i..], cutoff)
  }

  lemma MarkStep(row: seq<Session>, i: nat, cutoff: int)
    requires i < |row| && !Stays(row[i], cutoff)
    ensures ExpiredFrom(row[i := Marked(row[i])], i, cutoff) == ExpiredFrom(row, i, cutoff)
  {
    var row' := row[i := Marked(row[i])];
    assert row'[..i] == row[..i] && row'[i..][1..] == row[i..][1..];
  }

  lemma DropStep(row: seq<Session>, i: nat, cutoff: int)
    requires i < |row| && !Stays(row[i], cutoff)
    ensures ExpiredFrom(row[..i] + row[i + 1..], i, cutoff) == ExpiredFrom(row, i, cutoff)
  {
    var row' := row[..i] + row[i + 1..];
    assert row'[..i] == row[..i] && row'[i..] == row[i..][1..];
    assert ExpiredRow(row[i..], cutoff) == ExpiredRow(row'[i..], cutoff);
  }

  lemma KeepStep(row: seq<Session>, i: nat, cutoff: int)
    requires i < |row| && Stays(row[i], cutoff)
    ensures ExpiredFrom(row, i + 1, cutoff) == ExpiredFrom(row, i, cutoff)
  {
    assert row[i..][1..] == row[i + 1..] && row[..i] + [row[i]] == row[..i + 1];
  }

  lemma {:induction false} ExpiredGood(row: seq<Session>, b: nat, cutoff: int)
    requires GoodRow(row, b)
    ensures GoodRow(ExpiredRow(row, cutoff), b)
  {
    hide BucketOf;
    if row != [] {
      var tail := row[1..];
      var rest := ExpiredRow(tail, cutoff);
      ExpiredGood(tail, b, cutoff);
      ExpiredKeeps(tail, cutoff);
      forall j | 0 <= j < |rest| && !row[0].expired ensures !Matches(rest[j], row[0].addr, row[0].sessid) {
        assert rest[j] in tail;
      }
    }
  }

  lemma GoodTail(row: seq<Session>, b: nat, addr: bv32, sessid: bv32)
    requires GoodRow(row, b) && row != []
    ensures GoodRow(row[1..], b)
    ensures Matches(row[0], addr, sessid) ==> FindIn(row[1..], addr, sessid) == |row| - 1
  {
    hide BucketOf;
    var i := FindIn(row[1..], addr, sessid);
    if i < |row| - 1 {
      assert row[1..][i] == row[i + 1];
    }
  }

  lemma FirstFind(s: Session, row: seq<Session>, addr: bv32, sessid: bv32)
    ensures FindIn([s] + row, addr, sessid) == if Matches(s, addr, sessid) then 0 else 1 + FindIn(row, addr, sessid)
  {
    hide Matches;
    assert ([s] + row)[1..] == row;
  }

  lemma {:induction false} ExpiredFinds(row: seq<Session>, b: nat, cutoff: int, addr: bv32, sessid: bv32)
    requires GoodRow(row, b)
    ensures var row' := ExpiredRow(row, cutoff);
      var i, i' := FindIn(row, addr, sessid), FindIn(row', addr, sessid);
      && (i' < |row'| <==> i < |row| && row[i].lastcycle >= cutoff)
      && (i' < |row'| ==> i < |row| && row'[i'] == row[i])
  {
    if row != [] {
      var tail := row[1..];
      var tail' := ExpiredRow(tail, cutoff);
      GoodTail(row, b, addr, sessid);
      hide GoodRow, BucketOf;
      ExpiredFinds(tail, b, cutoff, addr, sessid);
      FirstFind(row[0], tail, addr, sessid);
      FirstFind(row[0], tail', addr, sessid);
      assert row == [row[0]] + tail;
      hide FindIn;
      assert ExpiredRow(row, cutoff) == if Stays(row[0], cutoff) then [row[0]] + tail' else tail';
    }
  }

  // ---- The table ----

  /** The session a lookup of this name finds, if any. */
  function Found(rows: seq<seq<Session>>, k: Name): Option<Session>
    requires |rows| == BUCKETS
  {
    var row := rows[BucketOf(k.0, k.1)];
    var i := FindIn(row, k.0, k.1);
    if i < |row| then Some(row[i]) else None
  }

  lemma RegisterRefines(rows: seq<seq<Session>>, l: Login, k: Name)
    requires Good(rows)
    ensures Good(Registered(rows, l))
    ensures Found(Registered(rows, l), k) ==
      if k != (l.addr, l.sessid) then Found(rows, k)
      else match Found(rows, k) case Some(s) => Some(Renewed(s, l)) case None => Some(NewSession(l))
  {
    hide RegisteredRow, FindIn, NewSession, Renewed;
    var b := BucketOf(l.addr, l.sessid);
    assert GoodRow(rows[b], b);
    RegisteredGood(rows[b], l);
    RegisteredFinds(rows[b], l, k.0, k.1);
    hide BucketOf, GoodRow;
  }

  lemma TenantRefines(rows: seq<seq<Session>>, tenantid: nat, k: Name)
    requires Good(rows)
    ensures Good(TenantRemoved(rows, tenantid))
    ensures Found(TenantRemoved(rows, tenantid), k) ==
      match Found(rows, k) case Some(s) => (if s.tenantid == tenantid then None else Some(s)) case None => None
  {
    hide TenantRow, FindIn, BucketOf, GoodRow;
    forall b | 0 <= b < BUCKETS ensures GoodRow(TenantRow(rows[b], tenantid), b) {
      TenantFinds(rows[b], b, tenantid, k.0, k.1);
    }
    var b := BucketOf(k.0, k.1);
    TenantFinds(rows[b], b, tenantid, k.0, k.1);
  }

  lemma ExpireRefines(rows: seq<seq<Session>>, cutoff: int, k: Name)
    requires Good(rows)
    ensures Good(Expired(rows, cutoff))
    ensures Found(Expired(rows, cutoff), k) ==
      match Found(rows, k) case Some(s) => (if s.lastcycle >= cutoff then Some(s) else None) case None => None
  {
    hide ExpiredRow, FindIn, BucketOf, GoodRow;
    forall b | 0 <= b < BUCKETS ensures GoodRow(ExpiredRow(rows[b], cutoff), b) {
      ExpiredGood(rows[b], b, cutoff);
    }
    var b := BucketOf(k.0, k.1);
    ExpiredFinds(rows[b], b, cutoff, k.0, k.1);
  }

  // ---- Runs ----

  function Run(ops: seq<Op>): (rows: seq<seq<Session>>)
    ensures |rows| == BUCKETS
  {
    if ops == [] then seq(BUCKETS, _ => []) else Step(Run(ops[..|ops| - 1]), ops[|ops| - 1])
  }

  /** What a run leaves of one name: the flat account of it. */
  function Known(ops: seq<Op>, k: Name): Option<Session> {
    if ops == [] then None
    else
      var s := Known(ops[..|ops| - 1], k);
      match ops[|ops| - 1]
      case Register(l) =>
        if k != (l.addr, l.sessid) then s else if s.Some? then Some(Renewed(s.value, l)) else Some(NewSession(l))
      case RemoveTenant(t) => if s.Some? && s.value.tenantid == t then None else s
      case Expire(c) => if s.Some? && s.value.lastcycle < c then None else s
  }

  /** Over any run the rows stay good, and a lookup of any name finds exactly what the flat
      account says. */
  lemma {:induction false} RunRefines(ops: seq<Op>, k: Name)
    ensures Good(Run(ops)) && Found(Run(ops), k) == Known(ops, k)
  {
    if ops != [] {
      var rows := Run(ops[..|ops| - 1]);
      RunRefines(ops[..|ops| - 1], k);
      hide Good, Found, Registered, TenantRemoved, Expired;
      match ops[|ops| - 1]
      case Register(l) => RegisterRefines(rows, l, k);
      case RemoveTenant(t) => TenantRefines(rows, t, k);
      case Expire(c) => ExpireRefines(rows, c, k);
    }
  }

  // ---- What is found, field by field ----

  /** After a login its name is found, with the time, key and address of that login. The tenant
      and the host are those it had, or those of the login if it was not there. Every other name
      is found as before. */
  lemma RegisterFields(rows: seq<seq<Session>>, l: Login)
    requires Good(rows)
    ensures var k := (l.addr, l.sessid);
      var was, now := Found(rows, k), Found(Registered(rows, l), k);
      && now.Some? && !now.value.expired && now.value.addr == l.addr && now.value.sessid == l.sessid
      && now.value.lastcycle == l.now && now.value.key == l.key && now.value.remote == l.remote
      && now.value.tenantid == (if was.Some? then was.value.tenantid else l.tenantid)
      && now.value.hostid == (if was.Some? then was.value.hostid else l.hostid)
    ensures forall k :: k != (l.addr, l.sessid) ==> Found(Registered(rows, l), k) == Found(rows, k)
  {
    var k := (l.addr, l.sessid);
    RegisterRefines(rows, l, k);
    forall k' | k' != k ensures Found(Registered(rows, l), k') == Found(rows, k') {
      RegisterRefines(rows, l, k');
    }
    FoundMatches(rows, k);
    hide Registered, Found, BucketOf;
  }

  lemma FoundMatches(rows: seq<seq<Session>>, k: Name)
    requires |rows| == BUCKETS
    ensures Found(rows, k).Some? ==> Matches(Found(rows, k).value, k.0, k.1)
  {
    hide BucketOf;
  }

  predicate LogsIn(op: Op, k: Name) {
    op.Register? && (op.l.addr, op.l.sessid) == k
  }

  /** The last login of a name in a run, or the end of the run. */
  function LastLogin(ops: seq<Op>, k: Name): (i: nat)
    ensures i <= |ops| && (i < |ops| ==> LogsIn(ops[i], k))
    ensures forall j :: i < j < |ops| ==> !LogsIn(ops[j], k)
    ensures i == |ops| ==> forall j :: 0 <= j < |ops| ==> !LogsIn(ops[j], k)
  {
    if ops == [] then 0
    else
      var n := |ops| - 1;
      if LogsIn(ops[n], k) then n
      else
        var i := LastLogin(ops[..n], k);
        if i < n then i else n + 1
  }

  /** The tenant and the host of the session that the login at i finds or makes. */
  function Owner(ops: seq<Op>, k: Name, i: nat): (nat, nat)
    requires i < |ops| && LogsIn(ops[i], k)
  {
    match Found(Run(ops[..i]), k)
    case Some(s) => (s.tenantid, s.hostid)
    case None => (ops[i].l.tenantid, ops[i].l.hostid)
  }

  /** Since the login at i no cutoff was after it and its tenant was not removed. */
  predicate Unharmed(ops: seq<Op>, k: Name, i: nat)
    requires i < |ops| && LogsIn(ops[i], k)
  {
    forall j :: i < j < |ops| ==>
      && (ops[j].Expire? ==> ops[j].cutoff <= ops[i].l.now)
      && (ops[j].RemoveTenant? ==> ops[j].tenantid != Owner(ops, k, i).0)
  }

  /** A name is found if and only if it logged in, and since its last login no cutoff was after
      that login and its tenant was not removed. What is found has the time, the key and the
      address of that login. */
  predicate Accounted(ops: seq<Op>, k: Name) {
    var i, f := LastLogin(ops, k), Found(Run(ops), k);
    && (f.Some? <==> i < |ops| && Unharmed(ops, k, i))
    && (f.Some? ==> f.value.lastcycle == ops[i].l.now && f.value.key == ops[i].l.key && f.value.remote == ops[i].l.remote
                    && (f.value.tenantid, f.value.hostid) == Owner(ops, k, i))
  }

  lemma {:induction false} RunFinds(ops: seq<Op>, k: Name)
    ensures Accounted(ops, k)
  {
    hide Accounted;
    if ops == [] {
      NothingFound(k);
    } else {
      RunFinds(ops[..|ops| - 1], k);
      RunRefines(ops[..|ops| - 1], k);
      if LogsIn(ops[|ops| - 1], k) {
        LoginAccounted(ops, k);
      } else {
        OtherAccounted(ops, k);
      }
    }
  }

  lemma NothingFound(k: Name)
    ensures Accounted([], k)
  {
    NoneAtFirst(k);
    hide Found, Run;
  }

  lemma {:induction false} LoginAccounted(ops: seq<Op>, k: Name)
    requires ops != [] && LogsIn(ops[|ops| - 1], k) && Good(Run(ops[..|ops| - 1]))
    ensures Accounted(ops, k)
  {
    var n := |ops| - 1;
    RegisterFields(Run(ops[..n]), ops[n].l);
    hide Good, Found, Registered;
    assert LastLogin(ops, k) == n;
    assert Run(ops) == Registered(Run(ops[..n]), ops[n].l);
    hide Run;
  }

  lemma {:induction false} OtherAccounted(ops: seq<Op>, k: Name)
    requires ops != [] && !LogsIn(ops[|ops| - 1], k) && Good(Run(ops[..|ops| - 1])) && Accounted(ops[..|ops| - 1], k)
    ensures Accounted(ops, k)
  {
    var n := |ops| - 1;
    var before := ops[..n];
    StepKeeps(Run(before), ops[n], k);
    assert Run(ops) == Step(Run(before), ops[n]);
    hide Good, Found, Step, Run;
    var i := LastLogin(before, k);
    assert LastLogin(ops, k) == if i < n then i else n + 1;
    if i < n {
      StillUnharmed(ops, k, i);
    }
    hide Unharmed, LastLogin, Owner, LogsIn;
  }

  lemma {:induction false} StillUnharmed(ops: seq<Op>, k: Name, i: nat)
    requires i < |ops| - 1 && LogsIn(ops[i], k)
    ensures Owner(ops, k, i) == Owner(ops[..|ops| - 1], k, i)
    ensures Unharmed(ops, k, i) <==>
      Unharmed(ops[..|ops| - 1], k, i) && Harmless(ops[|ops| - 1], ops[i].l.now, Owner(ops, k, i).0)
  {
    var before := ops[..|ops| - 1];
    assert before[..i] == ops[..i];
    hide Found, Run, LogsIn;
    assert forall j :: i < j < |before| ==> before[j] == ops[j];
  }

  predicate Harmless(op: Op, login: int, tenantid: nat) {
    && (op.Expire? ==> op.cutoff <= login)
    && (op.RemoveTenant? ==> op.tenantid != tenantid)
  }

  /** An operation that is no login of a name keeps its session as it is, or hides it. */
  lemma StepKeeps(rows: seq<seq<Session>>, op: Op, k: Name)
    requires Good(rows) && !LogsIn(op, k)
    ensures var was, now := Found(rows, k), Found(Step(rows, op), k);
      now == if was.Some? && Harmless(op, was.value.lastcycle, was.value.tenantid) then was else None
  {
    match op {
      case Register(l) => RegisterFields(rows, l);
      case RemoveTenant(t) => TenantRefines(rows, t, k);
      case Expire(c) => ExpireRefines(rows, c, k);
    }
    hide Found, Registered, TenantRemoved, Expired, Good;
  }

  lemma NoneAtFirst(k: Name)
    ensures Found(Run([]), k) == None
  {
    hide BucketOf;
  }

  /** A name that logs in again in time is not thrown out with those that do not. */
  lemma LoginKeeps(l: Login, again: Login, cutoff: int)
    requires (again.addr, again.sessid) == (l.addr, l.sessid) && l.now < cutoff <= again.now
    ensures var k := (l.addr, l.sessid);
      && Found(Run([Register(l), Register(again), Expire(cutoff)]), k).Some?
      && Found(Run([Register(l), Expire(cutoff)]), k) == None
  {
    var k := (l.addr, l.sessid);
    var kept, lost := [Register(l), Register(again), Expire(cutoff)], [Register(l), Expire(cutoff)];
    RunFinds(kept, k);
    RunFinds(lost, k);
    assert LogsIn(kept[1], k) && !LogsIn(kept[2], k);
    assert LogsIn(lost[0], k) && !LogsIn(lost[1], k);
    hide Found, Run;
    assert LastLogin(kept, k) == 1 && LastLogin(lost, k) == 0;
    assert lost[1].Expire? && lost[1].cutoff > lost[0].l.now;
  }

  /** The bucket is the exclusive or of the four bytes. */
  lemma BucketExample()
    ensures BucketOf(0x0102_0304, 0x1020_4080) == 0xf4
  {
  }
}
