/** The session table as the source keeps it: 256 doubly linked lists. */
module SessionTable {
  import opened Sessions
  import opened Wrappers

  class SessionNode {
    var next: SessionNode?
    var prev: SessionNode?
    var tenantid: nat
    var hostid: nat
    var addr: bv32
    var sessid: bv32
    var key: seq<bv8>
    var remote: seq<bv8>
    var lastcycle: int
    var expired: bool

    constructor (now: int)
      ensures next == prev == null && lastcycle == now && !expired
    {
      next, prev := null, null;
      lastcycle, expired := now, false;
    }

    ghost function Value(): Session
      reads this
    {
      Session(tenantid, hostid, addr, sessid, key, remote, lastcycle, expired)
    }
  }

  method NewNode(l: Login) returns (n: SessionNode)
    ensures fresh(n) && n.next == n.prev == null && n.Value() == NewSession(l)
  {
    n := new SessionNode(l.now);
    n.tenantid, n.hostid := l.tenantid, l.hostid;
    n.addr, n.sessid := l.addr, l.sessid;
    n.key, n.remote := l.key, l.remote;
  }

  ghost function Values(nodes: seq<SessionNode>): (row: seq<Session>)
    reads nodes
    ensures |row| == |nodes|
  {
    seq(|nodes|, i requires 0 <= i < |nodes| reads nodes => nodes[i].Value())
  }

  /** What comes at index i of a list: a node, or nothing beyond its ends. */
  ghost function NodeAt(nodes: seq<SessionNode>, i: int): SessionNode? {
    if 0 <= i < |nodes| then nodes[i] else null
  }

  ghost predicate Linked(nodes: seq<SessionNode>)
    reads nodes
  {
    && (forall i, j :: 0 <= i < j < |nodes| ==> nodes[i] != nodes[j])
    && (forall i {:trigger nodes[i].prev} :: 0 <= i < |nodes| ==> nodes[i].prev == NodeAt(nodes, i - 1))
    && (forall i {:trigger nodes[i].next} :: 0 <= i < |nodes| ==> nodes[i].next == NodeAt(nodes, i + 1))
  }

  lemma NextOf(nodes: seq<SessionNode>, i: nat)
    requires Linked(nodes) && i < |nodes|
    ensures nodes[i].next == NodeAt(nodes, i + 1)
  {
  }

  lemma WalkStarts(row: seq<Session>, cutoff: int)
    ensures ExpiredFrom(row, 0, cutoff) == ExpiredRow(row, cutoff)
  {
    assert row[0..] == row;
  }

  lemma WalkEnds(row: seq<Session>, cutoff: int)
    ensures ExpiredFrom(row, |row|, cutoff) == row
  {
  }

  /** One list of the table. */
  class Bucket {
    var first: SessionNode?
    var last: SessionNode?
    ghost var nodes: seq<SessionNode>

    ghost predicate Valid()
      reads this, nodes
    {
      Linked(nodes) && first == NodeAt(nodes, 0) && last == NodeAt(nodes, |nodes| - 1)
    }

    ghost function Row(): (row: seq<Session>)
      reads this, nodes
      ensures |row| == |nodes|
    {
      Values(nodes)
    }

    constructor ()
      ensures Valid() && nodes == []
    {
      first, last, nodes := null, null, [];
    }

    /** session_find within the bucket. */
    method Find(addr: bv32, sessid: bv32) returns (s: SessionNode?, ghost i: nat)
      requires Valid()
      ensures i == FindIn(Row(), addr, sessid) && s == NodeAt(nodes, i)
    {
      s, i := first, 0;
      while s != null && !(s.addr == addr && s.sessid == sessid && !s.expired)
        invariant i <= |nodes| && s == NodeAt(nodes, i)
        invariant FindIn(Row(), addr, sessid) == i + FindIn(Row()[i..], addr, sessid)
        decreases |nodes| - i
      {
        assert Row()[i..][0] == s.Value();
        assert Row()[i..][1..] == Row()[i + 1..];
        s, i := s.next, i + 1;
      }
      if s != null {
        assert Row()[i..][0] == s.Value();
      }
    }

    /** session_link: in at the top. */
    method Link(s: SessionNode)
      requires Valid() && s !in nodes && s.next == s.prev == null
      modifies this, s`next, nodes`prev
      ensures Valid() && nodes == [s] + old(nodes) && Row() == [s.Value()] + old(Row())
    {
      if first != null {
        s.next := first;
        first.prev := s;
        first := s;
      } else {
        first, last := s, s;
      }
      nodes := [s] + nodes;
      assert Row() == [s.Value()] + old(Row());
    }

    /** A login under a name that is there. */
    method Renew(s: SessionNode, ghost i: nat, l: Login)
      requires Valid() && i < |nodes| && s == nodes[i]
      modifies s`lastcycle, s`key, s`remote
      ensures Valid() && Row() == old(Row())[i := Renewed(old(Row())[i], l)]
    {
      s.lastcycle := l.now;
      s.key := l.key;
      s.remote := l.remote;
      assert Row() == old(Row())[i := s.Value()];
    }

    method Mark(s: SessionNode, ghost i: nat)
      requires Valid() && i < |nodes| && s == nodes[i]
      modifies s`expired
      ensures Valid() && s.expired && Row() == old(Row())[i := Marked(old(Row())[i])]
    {
      s.expired := true;
      assert Row() == old(Row())[i := s.Value()];
    }

    method RemoveTenant(tenantid: nat)
      requires Valid()
      modifies nodes`expired
      ensures Valid() && Row() == TenantRow(old(Row()), tenantid)
    {
      hide Marked;
      var crsr := first;
      ghost var row, i := Row(), 0;
      while crsr != null
        invariant Valid() && i <= |nodes| && crsr == NodeAt(nodes, i)
        invariant Row() == TenantBefore(row, i, tenantid)
        decreases |nodes| - i
      {
        assert crsr.Value() == Row()[i] == row[i];
        if crsr.tenantid == tenantid {
          Mark(crsr, i);
        }
        crsr, i := crsr.next, i + 1;
      }
    }

    /** Marks what is too old and unlinks what is marked. A session just marked is looked at again. */
    method Expire(cutoff: int)
      requires Valid()
      modifies this, nodes`next, nodes`prev, nodes`expired
      ensures Valid() && Row() == ExpiredRow(old(Row()), cutoff)
      ensures forall k :: 0 <= k < |nodes| ==> nodes[k] in old(nodes)
    {
      hide ExpiredFrom, Linked, Marked;
      var s := first;
      ghost var i := 0;
      WalkStarts(Row(), cutoff);
      while s != null
        invariant Valid() && i <= |nodes| && s == NodeAt(nodes, i)
        invariant forall k :: 0 <= k < |nodes| ==> nodes[k] in old(nodes)
        invariant ExpiredFrom(Row(), i, cutoff) == ExpiredRow(old(Row()), cutoff)
        decreases |nodes| - i, s != null && !s.expired
      {
        assert Row()[i] == s.Value();
        NextOf(nodes, i);
        var ns := s.next;
        if s.expired || s.lastcycle < cutoff {
          if !s.expired {
            MarkStep(Row(), i, cutoff);
            Mark(s, i);
            continue;
          }
          DropStep(Row(), i, cutoff);
          Unlink(s, i);
        } else {
          KeepStep(Row(), i, cutoff);
          i := i + 1;
        }
        s := ns;
      }
      WalkEnds(Row(), cutoff);
    }

    method Unlink(s: SessionNode, ghost i: nat)
      requires Valid() && i < |nodes| && s == nodes[i]
      modifies this, nodes`next, nodes`prev
      ensures Valid() && nodes == old(nodes[..i] + nodes[i + 1..])
      ensures Row() == old(Row()[..i] + Row()[i + 1..])
    {
      Bypass(s, i);
      nodes := nodes[..i] + nodes[i + 1..];
      hide Linked;
      assert Row() == old(Row()[..i] + Row()[i + 1..]);
    }

    /** The neighbours of s are tied to each other. */
    method Bypass(s: SessionNode, ghost i: nat)
      requires Valid() && i < |nodes| && s == nodes[i]
      modifies `first, `last, nodes`next, nodes`prev
      ensures var rest := nodes[..i] + nodes[i + 1..];
        Linked(rest) && first == NodeAt(rest, 0) && last == NodeAt(rest, |rest| - 1)
    {
      if s.prev != null {
        if s.next != null {
          s.prev.next := s.next;
          s.next.prev := s.prev;
        } else {
          s.prev.next := null;
          last := s.prev;
        }
      } else if s.next != null {
        s.next.prev := null;
        first := s.next;
      } else {
        first, last := null, null;
      }
    }
  }

  /** The whole table. */
  class Table {
    const s: array<Bucket>
    ghost var all: set<object>

    /** The bucket a node belongs in. */
    static ghost function Home(n: SessionNode): nat
      reads n
    {
      BucketOf(n.addr, n.sessid)
    }

    ghost predicate Shaped()
      reads this, s
    {
      && s.Length == BUCKETS
      && this !in all
      && (forall b :: 0 <= b < BUCKETS ==> s[b] in all)
      && (forall b, c :: 0 <= b < c < BUCKETS ==> s[b] != s[c])
    }

    /** Every list is well linked and holds its own bucket's sessions only. */
    ghost predicate Valid()
      reads this, s, all
    {
      && Shaped()
      && (forall b :: 0 <= b < BUCKETS ==> forall k :: 0 <= k < |s[b].nodes| ==> s[b].nodes[k] in all)
      && (forall b :: 0 <= b < BUCKETS ==> s[b].Valid())
      && (forall b :: 0 <= b < BUCKETS ==> forall k :: 0 <= k < |s[b].nodes| ==> Home(s[b].nodes[k]) == b)
    }

    ghost function Rows(): (rows: seq<seq<Session>>)
      requires Valid()
      reads this, s, all
      ensures |rows| == BUCKETS
    {
      seq(BUCKETS, b requires 0 <= b < BUCKETS reads this, s, all requires Valid() => s[b].Row())
    }

    constructor ()
      ensures Valid() && Rows() == Run([]) && fresh(all) && fresh(s)
    {
      var first := new Bucket();
      s := new Bucket[BUCKETS](_ => first);
      all := {first};
      new;
      hide BucketOf, Linked;
      var i := 1;
      while i < BUCKETS
        invariant 1 <= i <= BUCKETS && s.Length == BUCKETS && fresh(all) && fresh(s) && this !in all
        invariant forall b :: 0 <= b < BUCKETS ==> s[b] in all && s[b].nodes == [] && s[b].Valid()
        invariant forall b, c :: 0 <= b < c < i ==> s[b] != s[c]
        invariant forall b :: i <= b < BUCKETS ==> s[b] == first
      {
        var b := new Bucket();
        s[i] := b;
        all := all + {b};
        i := i + 1;
      }
    }

    method Find(addr: bv32, sessid: bv32) returns (n: SessionNode?, ghost i: nat)
      requires Valid()
      ensures var b := BucketOf(addr, sessid); i == FindIn(s[b].Row(), addr, sessid) && n == NodeAt(s[b].nodes, i)
      ensures (if n == null then None else Some(n.Value())) == Found(Rows(), (addr, sessid))
    {
      var bucket := BucketOf(addr, sessid);
      n, i := s[bucket].Find(addr, sessid);
    }

    /** No node is in two lists. */
    lemma Apart(b: nat)
      requires Valid() && b < BUCKETS
      ensures forall c, n :: 0 <= c < BUCKETS && c != b && n in s[c].nodes ==> n !in s[b].nodes
    {
      forall c, n | 0 <= c < BUCKETS && c != b && n in s[c].nodes ensures n !in s[b].nodes {
        assert Home(n) == c;
        assert n in s[b].nodes ==> Home(n) == b;
      }
    }

    method RemoveFrom(b: nat, tenantid: nat)
      requires Valid() && b < BUCKETS
      modifies s[b].nodes`expired
      ensures Valid() && Rows() == old(Rows())[b := TenantRow(old(Rows())[b], tenantid)]
    {
      hide BucketOf, Linked, TenantRow, Values;
      Apart(b);
      s[b].RemoveTenant(tenantid);
      assert forall c :: 0 <= c < BUCKETS && c != b ==> s[c].Valid() && s[c].Row() == old(s[c].Row());
    }

    method RemoveTenant(tenantid: nat)
      requires Valid()
      modifies all
      ensures Valid() && Rows() == TenantRemoved(old(Rows()), tenantid)
    {
      hide BucketOf, Linked, TenantRow, Values;
      var i := 0;
      while i < BUCKETS
        invariant i <= BUCKETS && Valid() && all == old(all)
        invariant forall b :: 0 <= b < BUCKETS ==> Rows()[b] == if b < i then TenantRow(old(Rows())[b], tenantid) else old(Rows())[b]
      {
        RemoveFrom(i, tenantid);
        i := i + 1;
      }
    }

    method ExpireFrom(b: nat, cutoff: int)
      requires Valid() && b < BUCKETS
      modifies s[b], s[b].nodes`next, s[b].nodes`prev, s[b].nodes`expired
      ensures Valid() && Rows() == old(Rows())[b := ExpiredRow(old(Rows())[b], cutoff)]
    {
      hide BucketOf, Linked, ExpiredRow, Values;
      Apart(b);
      s[b].Expire(cutoff);
      assert forall c :: 0 <= c < BUCKETS && c != b ==> s[c].Valid() && s[c].Row() == old(s[c].Row());
    }

    method Expire(cutoff: int)
      requires Valid()
      modifies all
      ensures Valid() && Rows() == Expired(old(Rows()), cutoff)
    {
      hide BucketOf, Linked, ExpiredRow, Values;
      var i := 0;
      while i < BUCKETS
        invariant i <= BUCKETS && Valid() && all == old(all)
        invariant forall b :: 0 <= b < BUCKETS ==> Rows()[b] == if b < i then ExpiredRow(old(Rows())[b], cutoff) else old(Rows())[b]
      {
        ExpireFrom(i, cutoff);
        i := i + 1;
      }
    }

    method RenewIn(n: SessionNode, b: nat, ghost i: nat, l: Login)
      requires Valid() && b < BUCKETS && i < |s[b].nodes| && n == s[b].nodes[i]
      modifies n`lastcycle, n`key, n`remote
      ensures Valid() && Rows() == old(Rows())[b := old(Rows())[b][i := Renewed(old(Rows())[b][i], l)]]
    {
      hide BucketOf, Linked, Values, Renewed;
      Apart(b);
      s[b].Renew(n, i, l);
      assert forall c :: 0 <= c < BUCKETS && c != b ==> s[c].Valid() && s[c].Row() == old(s[c].Row());
    }

    /** session_link. */
    method Link(n: SessionNode)
      requires Valid() && n in all && n.next == n.prev == null
      requires forall c :: 0 <= c < BUCKETS ==> n !in s[c].nodes
      modifies s[Home(n)], n`next, s[Home(n)].nodes`prev
      ensures Valid() && Rows() == old(Rows())[Home(n) := [n.Value()] + old(Rows())[Home(n)]]
    {
      hide BucketOf, Linked, Values;
      var b := BucketOf(n.addr, n.sessid);
      Apart(b);
      s[b].Link(n);
      assert forall c :: 0 <= c < BUCKETS && c != b ==> s[c].Valid() && s[c].Row() == old(s[c].Row());
    }

    method Admit(n: SessionNode)
      requires Valid()
      modifies this`all
      ensures Valid() && all == old(all) + {n} && Rows() == old(Rows())
    {
      hide BucketOf, Linked, Values;
      all := all + {n};
    }

    /** A node for a name that is not there. */
    method Enter(l: Login) returns (n: SessionNode)
      requires Valid()
      modifies this, all
      ensures Valid() && fresh(n) && all == old(all) + {n}
      ensures var b := BucketOf(l.addr, l.sessid); Rows() == old(Rows())[b := [NewSession(l)] + old(Rows())[b]]
    {
      hide BucketOf, Linked, Values, Bucket.Valid;
      n := NewNode(l);
      Admit(n);
      Link(n);
    }

    /** session_register. Whether the host exists is up to the caller. */
    method Register(l: Login, hostExists: bool) returns (n: SessionNode?)
      requires Valid()
      modifies this, all
      ensures Valid() && fresh(all - old(all))
      ensures Rows() == if hostExists then Registered(old(Rows()), l) else old(Rows())
      ensures n != null <==> hostExists
    {
      hide BucketOf, Linked, Values, FindIn;
      n := null;
      if hostExists {
        ghost var i;
        n, i := Find(l.addr, l.sessid);
        if n != null {
          RenewIn(n, BucketOf(l.addr, l.sessid), i, l);
        } else {
          n := Enter(l);
        }
      }
    }
  }
}
