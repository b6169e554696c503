/**
 * The pooled reply arena of the Redis protocol codec
 * (src/common/channel/codec/redis_reply.cpp).
 *
 * A RedisReply is a decoded reply: a type code, an integer, a floating value,
 * a string and, for arrays, its children.  Children are not allocated one by
 * one: they are handed out by a RedisReplyPool, which keeps a pre-sized
 * table of replies it reuses and an overflow list it grows on demand.  A
 * cursor says how many replies have been handed out since the pool was last
 * cleared; clearing the pool makes every reply reusable at once.
 */
module ReplyArena {
  import opened Wrappers
  import opened Strings

  type uint32 = x: int | 0 <= x < UINT32_LIMIT

  // hiredis reply type codes
  const REPLY_STRING: int := 1
  const REPLY_ARRAY: int := 2
  const REPLY_INTEGER: int := 3
  const REPLY_NIL: int := 4
  const REPLY_STATUS: int := 5
  const REPLY_ERROR: int := 6

  function Min(a: int, b: int): int { if a <= b then a else b }

  function Max(a: int, b: int): int { if a <= b then b else a }

  /** The table and overflow entries of a pool are pairwise distinct objects. */
  predicate Distinct(e: seq<RedisReply>, p: seq<RedisReply>) {
    (forall i, j :: 0 <= i < j < |e| ==> e[i] != e[j]) &&
    (forall i, j :: 0 <= i < j < |p| ==> p[i] != p[j]) &&
    (forall i, j :: 0 <= i < |e| && 0 <= j < |p| ==> e[i] != p[j])
  }

  /** The replies a pool with table `e`, overflow `p` and cursor `c` has handed out since its last Clear. */
  function IssuedOf(e: seq<RedisReply>, p: seq<RedisReply>, c: nat): seq<RedisReply> {
    e[..Min(c, |e|)] + p[..Min(Max(c - |e|, 0), |p|)]
  }

  /** The replies such a pool may still hand out before its next Clear. */
  function UpcomingOf(e: seq<RedisReply>, p: seq<RedisReply>, c: nat): seq<RedisReply> {
    e[Min(c, |e|)..] + p[Min(Max(c - |e|, 0), |p|)..]
  }

  lemma WithinEmpty(a: seq<RedisReply>, b: seq<RedisReply>)
    requires forall x :: x in a ==> x in b
    ensures b == [] ==> a == []
  {
    if a != [] {
      assert a[0] in a;
    }
  }

  lemma PrefixMembers(a: seq<RedisReply>, b: seq<RedisReply>)
    requires a <= b
    ensures forall x :: x in a ==> x in b
  {
    forall x | x in a ensures x in b {
      var i :| 0 <= i < |a| && a[i] == x;
      assert b[i] == x;
    }
  }

  /** Handing out the table slot at the cursor. */
  lemma HandoutSlot(e: seq<RedisReply>, p: seq<RedisReply>, c: nat)
    requires Distinct(e, p) && c < |e|
    ensures e[c] in IssuedOf(e, p, c + 1) && e[c] !in IssuedOf(e, p, c)
    ensures forall x :: x in IssuedOf(e, p, c) ==> x in IssuedOf(e, p, c + 1)
    ensures forall x :: x in UpcomingOf(e, p, c + 1) ==> x in UpcomingOf(e, p, c)
    ensures e[c] in UpcomingOf(e, p, c)
  {
    assert e[..c + 1] == e[..c] + [e[c]];
    assert IssuedOf(e, p, c) == e[..c];
    assert IssuedOf(e, p, c + 1) == e[..c] + [e[c]];
    assert UpcomingOf(e, p, c) == [e[c]] + UpcomingOf(e, p, c + 1);
    forall i | 0 <= i < c ensures e[i] != e[c] { }
    PrefixMembers(IssuedOf(e, p, c), IssuedOf(e, p, c + 1));
  }

  /** Handing out the overflow entry at the cursor, after growing the overflow from `p` to `q`. */
  lemma HandoutOverflow(e: seq<RedisReply>, p: seq<RedisReply>, q: seq<RedisReply>, c: nat)
    requires Distinct(e, q) && |e| <= c && |q| == Max(|p|, c - |e| + 1) && q[..|p|] == p
    ensures var r := q[c - |e|];
      r in IssuedOf(e, q, c + 1) && r !in IssuedOf(e, p, c) &&
      (r in UpcomingOf(e, p, c) || r in q[|p|..])
    ensures forall x :: x in IssuedOf(e, p, c) ==> x in IssuedOf(e, q, c + 1)
    ensures forall x :: x in UpcomingOf(e, q, c + 1) ==> x in UpcomingOf(e, p, c)
  {
    var k := c - |e|;
    var m := Min(k, |p|);
    assert e[..|e|] == e && e[|e|..] == [];
    assert IssuedOf(e, p, c) == e + p[..m];
    assert IssuedOf(e, q, c + 1) == e + q[..k + 1];
    assert UpcomingOf(e, p, c) == p[m..];
    assert UpcomingOf(e, q, c + 1) == q[k + 1..];
    OverflowIssued(e, p, q, k, m);
    OverflowUpcoming(p, q, k, m);
  }

  lemma OverflowIssued(e: seq<RedisReply>, p: seq<RedisReply>, q: seq<RedisReply>, k: nat, m: nat)
    requires Distinct(e, q) && |q| == Max(|p|, k + 1) && q[..|p|] == p && m == Min(k, |p|)
    ensures q[k] in e + q[..k + 1] && q[k] !in e + p[..m]
    ensures forall x :: x in e + p[..m] ==> x in e + q[..k + 1]
  {
    assert q[..m] == p[..m];
    forall i | 0 <= i < |e| ensures e[i] != q[k] { }
    forall i | 0 <= i < m ensures q[i] != q[k] { }
    assert q[k] == (e + q[..k + 1])[|e| + k];
    PrefixMembers(e + p[..m], e + q[..k + 1]);
  }

  lemma OverflowUpcoming(p: seq<RedisReply>, q: seq<RedisReply>, k: nat, m: nat)
    requires |q| == Max(|p|, k + 1) && q[..|p|] == p && m == Min(k, |p|)
    ensures q[k] in p[m..] || q[k] in q[|p|..]
    ensures forall x :: x in q[k + 1..] ==> x in p[m..]
  {
    forall x | x in q[k + 1..] ensures x in p[m..] {
      var i :| k + 1 <= i < |q| && q[i] == x;
      assert x == p[m..][i - m];
    }
    if k < |p| {
      assert q[k] == p[m..][0];
    } else {
      assert q[k] == q[|p|..][k - |p|];
    }
  }

  /**
   * One hand-out by a pool whose overflow goes from `p` to `q` while the
   * cursor moves from `c` to `c + 1`: the reply handed out was not handed
   * out before and was still to come (or is new), everything handed out
   * stays handed out, and nothing new becomes due.
   */
  lemma Handout(e: seq<RedisReply>, p: seq<RedisReply>, q: seq<RedisReply>, c: nat, r: RedisReply)
    requires Distinct(e, q)
    requires c < |e| ==> q == p && r == e[c]
    requires |e| <= c ==> |q| == Max(|p|, c - |e| + 1) && q[..|p|] == p && r == q[c - |e|]
    ensures r in IssuedOf(e, q, c + 1) && r !in IssuedOf(e, p, c)
    ensures forall x :: x in IssuedOf(e, p, c) ==> x in IssuedOf(e, q, c + 1)
    ensures forall x :: x in UpcomingOf(e, q, c + 1) ==> x in UpcomingOf(e, p, c)
    ensures r in UpcomingOf(e, p, c) || r in q[|p|..]
  {
    if c < |e| {
      HandoutSlot(e, p, c);
    } else {
      HandoutOverflow(e, p, q, c);
    }
  }

  class RedisReply {
    var rtype: int
    var integer: int
    /** The floating value; only its reset is modelled. */
    var doubleValue: real
    var str: string
    var members: seq<RedisReply>
    var pool: RedisReplyPool?
    var selfPool: bool

    /** Holds nothing: the state Clear() leaves a reply in. */
    predicate Cleared()
      reads this
    {
      rtype == 0 && integer == 0 && doubleValue == 0.0 && str == [] && members == []
    }

    constructor()
      ensures Cleared() && pool == null && !selfPool
    {
      rtype := 0;
      integer := 0;
      doubleValue := 0.0;
      str := [];
      members := [];
      pool := null;
      selfPool := false;
    }

    /** SetPool: bind to a shared pool; a null pool changes nothing. */
    method SetPool(p: RedisReplyPool?)
      modifies this`pool, this`selfPool
      ensures p == null ==> pool == old(pool) && selfPool == old(selfPool)
      ensures p != null ==> pool == p && !selfPool
    {
      if p != null {
        pool := p;
        selfPool := false;
      }
    }

    /** GetPool: the bound pool, or a new pool of `defaultSize` owned by this reply. */
    method GetPool(defaultSize: uint32) returns (p: RedisReplyPool)
      modifies this`pool, this`selfPool
      ensures pool == p
      ensures old(pool) != null ==> p == old(pool) && selfPool == old(selfPool)
      ensures old(pool) == null ==>
                fresh(p) && selfPool && p.Valid() && p.elements == [] && p.pending == [] &&
                p.cursor == 0 && p.maxSize == defaultSize
    {
      if pool == null {
        pool := new RedisReplyPool(defaultSize);
        selfPool := true;
      }
      p := pool;
    }

    /** MemberSize */
    function MemberSize(): (n: nat)
      reads this
      ensures n == |members|
      ensures n == 0 <==> members == []
    {
      |members|
    }

    /** MemberAt: the `i`th child; out of range there is none (the source throws). */
    function MemberAt(i: nat): (r: Option<RedisReply>)
      reads this
      ensures r.Some? <==> i < MemberSize()
      ensures r.Some? ==> r.value == members[i] && r.value in members
    {
      if i < |members| then Some(members[i]) else None
    }

    /** Clear: empty the reply, and its pool when the reply owns it. */
    method Clear()
      modifies this`rtype, this`integer, this`doubleValue, this`str, this`members
      modifies if selfPool && pool != null then {pool} else {}
      ensures Cleared()
      ensures selfPool && pool != null ==>
                pool.cursor == 0 && pool.pending == [] && pool.elements == old(pool.elements) &&
                pool.maxSize == old(pool.maxSize)
    {
      rtype := 0;
      integer := 0;
      doubleValue := 0.0;
      str := [];
      members := [];
      if selfPool && pool != null {
        pool.Clear();
      }
    }

    /**
     * AddMember: make this reply an array and give it one more child from
     * the pool, last when `tail` holds and first otherwise.  The reply must
     * not be one the pool will hand out next (the pool would clear it).
     */
    method AddMember(tail: bool, defaultPoolSize: uint32) returns (r: RedisReply)
      requires pool != null ==> pool.Valid() && this !in pool.Upcoming()
      modifies this`rtype, this`members, this`pool, this`selfPool
      modifies pool, if pool != null then pool.Upcoming() else []
      ensures rtype == REPLY_ARRAY && pool != null && r != this
      ensures members == if tail then old(members) + [r] else [r] + old(members)
      ensures pool.Valid() && this !in pool.Upcoming() && r in pool.Issued()
      ensures old(pool) != null ==> pool == old(pool) && pool.cursor == old(pool.cursor) + 1
      ensures old(pool) == null ==> fresh(pool) && selfPool && pool.cursor == 1
      ensures r.pool == pool && !r.selfPool
    {
      rtype := REPLY_ARRAY;
      var p := GetPool(defaultPoolSize);
      assert this !in p.Upcoming() && p.Valid();
      r := Take(p);
      assert pool == p && rtype == REPLY_ARRAY && this !in p.Upcoming() && p.Valid() && r != this;
      if tail {
        members := members + [r];
      } else {
        members := [r] + members;
      }
    }

    /**
     * ReserveMember: make this reply an array with at least `num` children,
     * the added ones NIL replies from the pool.
     */
    method ReserveMember(num: nat, defaultPoolSize: uint32)
      requires pool != null ==> pool.Valid() && this !in pool.Upcoming()
      modifies this`rtype, this`members, this`pool, this`selfPool
      modifies pool, if pool != null then set x | x in pool.Upcoming() else {}
      ensures rtype == REPLY_ARRAY
      ensures |members| == Max(|old(members)|, num) && members[..|old(members)|] == old(members)
      ensures forall j :: |old(members)| <= j < |members| ==> members[j].rtype == REPLY_NIL
      ensures pool != null ==> pool.Valid() && this !in pool.Upcoming()
      ensures old(pool) != null ==> pool == old(pool)
    {
      rtype := REPLY_ARRAY;
      var i := |members|;
      if i < num {
        // GetPool() hands back the same pool on every round, so it is fetched once.
        var p := GetPool(defaultPoolSize);
        ghost var due := p.Upcoming();
        assert old(pool) == null ==> due == [] by {
          assert UpcomingOf([], [], 0) == [];
        }
        assert old(pool) != null ==> due == old(pool.Upcoming());
        while i < num
          invariant i == |members| <= Max(|old(members)|, num)
          invariant |old(members)| <= |members| && members[..|old(members)|] == old(members)
          invariant rtype == REPLY_ARRAY && pool == p && p.Valid() && this !in p.Upcoming()
          invariant if old(pool) != null then p == old(pool) else fresh(p)
          invariant forall x :: x in p.Upcoming() ==> x in due
          invariant forall j :: |old(members)| <= j < |members| ==>
                      members[j].rtype == REPLY_NIL && members[j] in p.Issued()
        {
          WithinEmpty(p.Upcoming(), due);
          PushNil(p);
          i := i + 1;
        }
      }
    }

    /** One step of ReserveMember: a NIL child from the pool, placed last. */
    method PushNil(p: RedisReplyPool)
      requires pool == p && p.Valid() && this !in p.Upcoming()
      modifies this`members, p, p.Upcoming()
      ensures p.Valid() && this !in p.Upcoming()
      ensures |members| == |old(members)| + 1 && members[..|old(members)|] == old(members)
      ensures members[|old(members)|].rtype == REPLY_NIL && members[|old(members)|] in p.Issued()
      ensures forall x :: x in old(p.Issued()) ==> x in p.Issued() && x.rtype == old(x.rtype)
      ensures forall x :: x in p.Upcoming() ==> x in old(p.Upcoming())
    {
      var r := Take(p);
      r.rtype := REPLY_NIL;
      members := members + [r];
    }
  }

  /** ReserveMember's loop counter as the source declares it: a uint32, which wraps to 0 after 2^32 - 1. */
  function NextCounterAsWritten(i: uint32): (r: uint32)
    ensures r == 0 <==> i == UINT32_LIMIT - 1
  {
    (i + 1) % UINT32_LIMIT
  }

  /**
   * With a size_t count of 2^32 or more, the loop test `i < num` holds for
   * every value the uint32 counter can take, before and after each
   * increment, so the loop as written never exits; ReserveMember counts
   * with an unbounded counter instead.
   */
  lemma ReserveLoopEndlessAsWritten(num: nat, i: uint32)
    requires num >= UINT32_LIMIT
    ensures i < num && NextCounterAsWritten(i) < num
    ensures NextCounterAsWritten(UINT32_LIMIT - 1) == 0 < num
  {
  }

  /**
   * GetPool().Allocate() as AddMember and ReserveMember use it: the reply
   * handed out is one not handed out before, that was still to come or is
   * new, and the pool hands out nothing it had not yet to hand out.
   */
  method Take(p: RedisReplyPool) returns (r: RedisReply)
    requires p.Valid()
    modifies p, p.Upcoming()
    ensures p.Valid() && p.cursor == old(p.cursor) + 1 && p.elements == old(p.elements)
    ensures r in p.Issued() && r !in old(p.Issued()) && (r in old(p.Upcoming()) || fresh(r))
    ensures forall x :: x in old(p.Issued()) ==> x in p.Issued() && x.rtype == old(x.rtype)
    ensures forall x :: x in p.Upcoming() ==> x in old(p.Upcoming())
    ensures r.pool == p && !r.selfPool
  {
    p.NextIsUpcoming();
    ghost var e, q, c := p.elements, p.pending, p.cursor;
    r := p.Allocate();
    Handout(e, q, p.pending, c, r);
    if c >= |e| && c - |e| >= |q| {
      assert r == p.pending[|q|..][c - |e| - |q|];
    }
  }

  class RedisReplyPool {
    /** The pre-sized table of reusable replies. */
    var elements: seq<RedisReply>
    /** Replies allocated beyond the table, dropped on Clear. */
    var pending: seq<RedisReply>
    var maxSize: uint32
    var cursor: nat

    /**
     * Every reply the pool holds is a distinct object bound to this pool,
     * which does not own it.
     */
    predicate Valid()
      reads this, elements`pool, elements`selfPool, pending`pool, pending`selfPool
    {
      Distinct(elements, pending) &&
      (forall r :: r in elements ==> r.pool == this && !r.selfPool) &&
      (forall r :: r in pending ==> r.pool == this && !r.selfPool)
    }

    /** The replies handed out since the last Clear. */
    function Issued(): seq<RedisReply>
      reads this
    {
      IssuedOf(elements, pending, cursor)
    }

    /** The replies the pool may still hand out before the next Clear. */
    function Upcoming(): seq<RedisReply>
      reads this
    {
      UpcomingOf(elements, pending, cursor)
    }

    /** The slot Allocate clears next is one still to come. */
    lemma NextIsUpcoming()
      ensures cursor < |elements| ==> elements[cursor] in Upcoming() && elements[cursor] in elements
    {
      if cursor < |elements| {
        assert elements[cursor] == Upcoming()[0];
      }
    }

    /** The constructor: SetMaxSize sees the size already recorded, so the table stays empty. */
    constructor(size: uint32)
      ensures maxSize == size && elements == [] && pending == [] && cursor == 0 && Valid()
    {
      maxSize := size;
      cursor := 0;
      elements := [];
      pending := [];
      new;
      SetMaxSize(size);
    }

    /**
     * SetMaxSize: unless `size` is 0 or already the recorded size, resize the
     * table to `size` slots (keeping the slots it already had) and bind every
     * slot to this pool.
     */
    method SetMaxSize(size: uint32)
      requires Valid()
      modifies this, elements
      ensures Valid() && cursor == old(cursor) && pending == old(pending)
      ensures size == 0 || size == old(maxSize) ==> elements == old(elements) && maxSize == old(maxSize)
      ensures size > 0 && size != old(maxSize) ==>
                maxSize == size && |elements| == size &&
                elements[..Min(size, |old(elements)|)] == old(elements)[..Min(size, |old(elements)|)] &&
                forall j :: |old(elements)| <= j < size ==> fresh(elements[j]) && elements[j].Cleared()
    {
      if size > 0 && size != maxSize {
        if size <= |elements| {
          elements := elements[..size];
        } else {
          GrowTable(size);
        }
        maxSize := size;
        BindTable();
      }
    }

    /** The growing half of elements.resize: new, empty replies are added up to `size` slots. */
    method GrowTable(size: nat)
      requires Valid() && |elements| < size
      modifies this`elements
      ensures |elements| == size && elements[..|old(elements)|] == old(elements)
      ensures forall j :: |old(elements)| <= j < size ==> fresh(elements[j]) && elements[j].Cleared()
      ensures Distinct(elements, pending)
      ensures forall r :: r in old(elements) ==> r.pool == this && !r.selfPool
      ensures forall r :: r in pending ==> r.pool == this && !r.selfPool
    {
      while |elements| < size
        invariant |old(elements)| <= |elements| <= size
        invariant elements[..|old(elements)|] == old(elements)
        invariant forall j :: |old(elements)| <= j < |elements| ==> fresh(elements[j]) && elements[j].Cleared()
        invariant Distinct(elements, pending)
        decreases size - |elements|
      {
        var r := new RedisReply();
        elements := elements + [r];
      }
    }

    /** The loop of SetMaxSize: every slot of the table is bound to this pool. */
    method BindTable()
      requires Distinct(elements, pending)
      requires forall r :: r in pending ==> r.pool == this && !r.selfPool
      modifies elements
      ensures Valid()
      ensures forall r :: r in elements && old(r.Cleared()) ==> r.Cleared()
    {
      for i := 0 to |elements|
        invariant forall j :: 0 <= j < i ==> elements[j].pool == this && !elements[j].selfPool
        invariant forall r :: r in pending ==> r.pool == this && !r.selfPool
        invariant forall r :: r in elements && old(r.Cleared()) ==> r.Cleared()
      {
        elements[i].SetPool(this);
      }
    }

    /**
     * Allocate: hand out the next reply.  Within the table it is the slot at
     * the cursor, cleared; beyond it, the overflow list is grown with new
     * replies until it reaches the cursor, and that entry is handed out as it
     * is.  The cursor moves on by one either way.
     */
    method Allocate() returns (r: RedisReply)
      requires Valid()
      modifies this, if cursor < |elements| then {elements[cursor]} else {}
      ensures Valid() && cursor == old(cursor) + 1 && elements == old(elements) && maxSize == old(maxSize)
      ensures old(cursor) < |elements| ==> r == elements[old(cursor)] && r.Cleared() && pending == old(pending)
      ensures old(cursor) >= |elements| ==>
                var k := old(cursor) - |elements|;
                |pending| == Max(|old(pending)|, k + 1) && pending[..|old(pending)|] == old(pending) &&
                r == pending[k] &&
                forall j :: |old(pending)| <= j < |pending| ==> fresh(pending[j]) && pending[j].Cleared()
      ensures r.pool == this && !r.selfPool
    {
      if cursor >= |elements| {
        GrowOverflow();
        r := pending[cursor - |elements|];
        cursor := cursor + 1;
      } else {
        r := elements[cursor];
        cursor := cursor + 1;
        r.Clear();
      }
    }

    /** Grow the overflow list with new replies bound to this pool until it reaches the cursor. */
    method GrowOverflow()
      requires Valid() && cursor >= |elements|
      modifies this`pending
      ensures Valid() && |pending| == Max(|old(pending)|, cursor - |elements| + 1)
      ensures pending[..|old(pending)|] == old(pending)
      ensures forall j :: |old(pending)| <= j < |pending| ==> fresh(pending[j]) && pending[j].Cleared()
    {
      while cursor - |elements| >= |pending|
        invariant |old(pending)| <= |pending| <= Max(|old(pending)|, cursor - |elements| + 1)
        invariant pending[..|old(pending)|] == old(pending)
        invariant forall j :: |old(pending)| <= j < |pending| ==> fresh(pending[j]) && pending[j].Cleared()
        invariant Valid()
        decreases cursor - |elements| + 1 - |pending|
      {
        var n := new RedisReply();
        n.SetPool(this);
        pending := pending + [n];
      }
    }

    /** Clear: make every reply reusable; the table is kept, the overflow dropped. */
    method Clear()
      modifies this`cursor, this`pending
      ensures cursor == 0 && pending == []
      ensures Issued() == [] && Upcoming() == elements
    {
      cursor := 0;
      if pending != [] {
        pending := [];
      }
    }
  }
}
