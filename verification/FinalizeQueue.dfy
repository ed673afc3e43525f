/** The queue of objects ready for finalization (finalize.c): where the records are, and what Java finalization does. */
module FinalizeQueue {
  import opened MarkGraph
  import opened HashTables
  import opened FinalizeOrder

  /** An entry of GC_finalize_now: the object, no longer hidden, and its record. */
  datatype Ready = Ready(base: Address, rec: Rec)

  /** A call of a finalizer. */
  datatype Call = Call(fn: int, base: Address, cd: int)

  ghost function Bases(q: seq<Ready>): set<int> {
    set r | r in q :: r.base
  }

  ghost predicate DistinctBases(q: seq<Ready>) {
    forall a, b | 0 <= a < b < |q| :: q[a].base != q[b].base
  }

  /** The records added to the queue are those that left the registry, and their objects were not marked. */
  ghost predicate Picked(reg0: Registry, mk: set<int>, reg: Registry, added: seq<Ready>) {
    && DistinctBases(added)
    && (forall k {:trigger PickedKey(reg0, reg, added, k)} :: PickedKey(reg0, reg, added, k))
    && (forall r {:trigger PickedReady(reg0, mk, reg, added, r)} :: PickedReady(reg0, mk, reg, added, r))
  }

  ghost predicate PickedKey(reg0: Registry, reg: Registry, added: seq<Ready>, k: Address) {
    && (k in reg ==> k in reg0 && reg[k] == reg0[k])
    && (k in reg0 ==> (k !in reg <==> Ready(k, reg0[k]) in added))
  }

  ghost predicate PickedReady(reg0: Registry, mk: set<int>, reg: Registry, added: seq<Ready>, r: Ready) {
    r in added ==> r.base in reg0 && r.rec == reg0[r.base] && r.base !in reg && r.base !in mk
  }

  lemma PickOne(reg0: Registry, mk: set<int>, reg: Registry, added: seq<Ready>, k: Address)
    requires Picked(reg0, mk, reg, added) && k in reg && k !in mk
    ensures Picked(reg0, mk, reg - {k}, [Ready(k, reg[k])] + added) == true
  {
    var reg1: Registry := reg - {k};
    var added1 := [Ready(k, reg[k])] + added;
    assert PickedKey(reg0, reg, added, k);
    forall r {:trigger PickedReady(reg0, mk, reg1, added1, r)} ensures PickedReady(reg0, mk, reg1, added1, r) {
      assert PickedReady(reg0, mk, reg, added, r);
      assert r in added1 && r != Ready(k, reg[k]) ==> r in added;
    }
    forall c {:trigger PickedKey(reg0, reg1, added1, c)} ensures PickedKey(reg0, reg1, added1, c) {
      assert PickedKey(reg0, reg, added, c);
      assert c in reg0 && c != k ==> (Ready(c, reg0[c]) in added1 <==> Ready(c, reg0[c]) in added);
    }
    forall a, b | 0 <= a < b < |added1| ensures added1[a].base != added1[b].base {
      assert PickedReady(reg0, mk, reg, added, added1[b]);
      assert added1[b] in added;
    }
  }

  // ----------------------------------------------------------------------------- conservation of the records

  ghost predicate InQueue(q: seq<Ready>, id: nat) {
    exists a :: 0 <= a < |q| && q[a].rec.id == id
  }

  ghost predicate InTable(reg: Registry, id: nat) {
    exists k {:trigger reg[k]} :: k in reg && reg[k].id == id
  }

  /** Every record that was ever made is in exactly one place: in the table, in the queue, called, or dropped by its
      owner; and in that place only once. */
  ghost predicate Accounted(reg: Registry, q: seq<Ready>, called: seq<nat>, dropped: set<nat>, nextId: nat) {
    && (forall k {:trigger TableId(reg, q, called, dropped, nextId, k)} | k in reg ::
          TableId(reg, q, called, dropped, nextId, k))
    && (forall a {:trigger QueueId(q, called, dropped, nextId, a)} | 0 <= a < |q| :: QueueId(q, called, dropped, nextId, a))
    && (forall a {:trigger CalledId(called, dropped, nextId, a)} | 0 <= a < |called| :: CalledId(called, dropped, nextId, a))
    && (forall id | id in dropped :: id < nextId)
    && (forall id {:trigger Somewhere(reg, q, called, dropped, id)} | 0 <= id < nextId ::
          Somewhere(reg, q, called, dropped, id))
  }

  ghost predicate Somewhere(reg: Registry, q: seq<Ready>, called: seq<nat>, dropped: set<nat>, id: nat) {
    InTable(reg, id) || InQueue(q, id) || id in called || id in dropped
  }

  ghost predicate TableId(reg: Registry, q: seq<Ready>, called: seq<nat>, dropped: set<nat>, nextId: nat, k: Address)
    requires k in reg
  {
    && reg[k].id < nextId && reg[k].id !in called && reg[k].id !in dropped
    && (forall c {:trigger reg[c]} | c in reg && c != k :: reg[c].id != reg[k].id)
    && (forall a | 0 <= a < |q| :: q[a].rec.id != reg[k].id)
  }

  ghost predicate QueueId(q: seq<Ready>, called: seq<nat>, dropped: set<nat>, nextId: nat, a: int)
    requires 0 <= a < |q|
  {
    && q[a].rec.id < nextId && q[a].rec.id !in called && q[a].rec.id !in dropped
    && (forall b | 0 <= b < |q| && b != a :: q[b].rec.id != q[a].rec.id)
  }

  ghost predicate CalledId(called: seq<nat>, dropped: set<nat>, nextId: nat, a: int)
    requires 0 <= a < |called|
  {
    called[a] < nextId && called[a] !in dropped && forall b | 0 <= b < |called| && b != a :: called[b] != called[a]
  }

  /** The record of key k goes from the table to the front of the queue. */
  lemma AccountQueue(reg: Registry, q: seq<Ready>, called: seq<nat>, dropped: set<nat>, nextId: nat, k: Address)
    requires Accounted(reg, q, called, dropped, nextId) && k in reg
    ensures Accounted(reg - {k}, [Ready(k, reg[k])] + q, called, dropped, nextId) == true
  {
    var reg1: Registry := reg - {k};
    var q1 := [Ready(k, reg[k])] + q;
    assert TableId(reg, q, called, dropped, nextId, k);
    forall a {:trigger QueueId(q1, called, dropped, nextId, a)} | 0 <= a < |q1|
      ensures QueueId(q1, called, dropped, nextId, a)
    {
      if a > 0 {
        assert QueueId(q, called, dropped, nextId, a - 1);
      }
    }
    forall c {:trigger TableId(reg1, q1, called, dropped, nextId, c)} | c in reg1
      ensures TableId(reg1, q1, called, dropped, nextId, c)
    {
      assert TableId(reg, q, called, dropped, nextId, c);
    }
    forall id {:trigger Somewhere(reg1, q1, called, dropped, id)} | 0 <= id < nextId
      ensures Somewhere(reg1, q1, called, dropped, id)
    {
      assert Somewhere(reg, q, called, dropped, id);
      if InTable(reg, id) {
        var c :| c in reg && reg[c].id == id;
        if c == k {
          assert q1[0].rec.id == id;
        } else {
          assert reg1[c].id == id;
        }
      } else if InQueue(q, id) {
        var a :| 0 <= a < |q| && q[a].rec.id == id;
        assert q1[a + 1].rec.id == id;
      }
    }
  }

  /** The record at place a of the queue goes back to the table. */
  lemma AccountRevive(reg: Registry, q: seq<Ready>, called: seq<nat>, dropped: set<nat>, nextId: nat, a: int)
    requires Accounted(reg, q, called, dropped, nextId) && 0 <= a < |q| && q[a].base !in reg
    ensures Accounted(reg[q[a].base := q[a].rec], q[..a] + q[a + 1..], called, dropped, nextId) == true
  {
    var r := q[a];
    var reg1: Registry := reg[r.base := r.rec];
    var q1 := q[..a] + q[a + 1..];
    assert QueueId(q, called, dropped, nextId, a);
    forall b {:trigger QueueId(q1, called, dropped, nextId, b)} | 0 <= b < |q1|
      ensures QueueId(q1, called, dropped, nextId, b)
    {
      assert QueueId(q, called, dropped, nextId, if b < a then b else b + 1);
    }
    forall c {:trigger TableId(reg1, q1, called, dropped, nextId, c)} | c in reg1
      ensures TableId(reg1, q1, called, dropped, nextId, c)
    {
      if c != r.base {
        assert TableId(reg, q, called, dropped, nextId, c);
      } else {
        forall d {:trigger reg1[d]} | d in reg1 && d != c ensures reg1[d].id != reg1[c].id {
          assert TableId(reg, q, called, dropped, nextId, d);
        }
      }
    }
    forall id {:trigger Somewhere(reg1, q1, called, dropped, id)} | 0 <= id < nextId
      ensures Somewhere(reg1, q1, called, dropped, id)
    {
      assert Somewhere(reg, q, called, dropped, id);
      if InTable(reg, id) {
        var c :| c in reg && reg[c].id == id;
        assert reg1[c].id == id;
      } else if InQueue(q, id) {
        var b :| 0 <= b < |q| && q[b].rec.id == id;
        if b == a {
          assert reg1[r.base].id == id;
        } else {
          assert q1[if b < a then b else b - 1].rec.id == id;
        }
      }
    }
  }

  /** The first record of the queue is called. */
  lemma AccountCall(reg: Registry, q: seq<Ready>, called: seq<nat>, dropped: set<nat>, nextId: nat)
    requires Accounted(reg, q, called, dropped, nextId) && q != []
    ensures Accounted(reg, q[1..], called + [q[0].rec.id], dropped, nextId) == true
  {
    var called1, q1 := called + [q[0].rec.id], q[1..];
    assert QueueId(q, called, dropped, nextId, 0);
    forall b {:trigger QueueId(q1, called1, dropped, nextId, b)} | 0 <= b < |q1|
      ensures QueueId(q1, called1, dropped, nextId, b)
    {
      assert QueueId(q, called, dropped, nextId, b + 1);
    }
    forall c {:trigger TableId(reg, q1, called1, dropped, nextId, c)} | c in reg
      ensures TableId(reg, q1, called1, dropped, nextId, c)
    {
      assert TableId(reg, q, called, dropped, nextId, c);
    }
    forall a {:trigger CalledId(called1, dropped, nextId, a)} | 0 <= a < |called1|
      ensures CalledId(called1, dropped, nextId, a)
    {
      if a < |called| {
        assert CalledId(called, dropped, nextId, a);
        assert called[a] in called;
      }
    }
    forall id {:trigger Somewhere(reg, q1, called1, dropped, id)} | 0 <= id < nextId
      ensures Somewhere(reg, q1, called1, dropped, id)
    {
      assert Somewhere(reg, q, called, dropped, id);
      if InQueue(q, id) {
        var b :| 0 <= b < |q| && q[b].rec.id == id;
        if b > 0 {
          assert q1[b - 1].rec.id == id;
        } else {
          assert called1[|called|] == id;
        }
      } else if id in called {
        var b :| 0 <= b < |called| && called[b] == id;
        assert called1[b] == id;
      }
    }
  }

  /** A new record is entered for key k. */
  lemma AccountNew(reg: Registry, q: seq<Ready>, called: seq<nat>, dropped: set<nat>, nextId: nat, k: Address, r: Rec)
    requires Accounted(reg, q, called, dropped, nextId) && k !in reg && r.id == nextId
    ensures Accounted(reg[k := r], q, called, dropped, nextId + 1) == true
  {
    var reg1: Registry := reg[k := r];
    forall a {:trigger QueueId(q, called, dropped, nextId + 1, a)} | 0 <= a < |q|
      ensures QueueId(q, called, dropped, nextId + 1, a)
    {
      assert QueueId(q, called, dropped, nextId, a);
    }
    forall a | 0 <= a < |q| ensures q[a].rec.id != nextId {
      assert QueueId(q, called, dropped, nextId, a);
    }
    forall a {:trigger CalledId(called, dropped, nextId + 1, a)} | 0 <= a < |called|
      ensures CalledId(called, dropped, nextId + 1, a)
    {
      assert CalledId(called, dropped, nextId, a);
    }
    forall a | 0 <= a < |called| ensures called[a] != nextId {
      assert CalledId(called, dropped, nextId, a);
    }
    forall c {:trigger TableId(reg1, q, called, dropped, nextId + 1, c)} | c in reg1
      ensures TableId(reg1, q, called, dropped, nextId + 1, c)
    {
      if c != k {
        assert TableId(reg, q, called, dropped, nextId, c);
      } else {
        forall d {:trigger reg1[d]} | d in reg1 && d != c ensures reg1[d].id != reg1[c].id {
          assert TableId(reg, q, called, dropped, nextId, d);
        }
      }
    }
    forall id {:trigger Somewhere(reg1, q, called, dropped, id)} | 0 <= id < nextId + 1
      ensures Somewhere(reg1, q, called, dropped, id)
    {
      if id == nextId {
        assert reg1[k].id == id;
      } else {
        assert Somewhere(reg, q, called, dropped, id);
        if InTable(reg, id) {
          var c :| c in reg && reg[c].id == id;
          assert reg1[c].id == id;
        }
      }
    }
  }

  /** The record of key k is dropped by its owner. */
  lemma AccountDrop(reg: Registry, q: seq<Ready>, called: seq<nat>, dropped: set<nat>, nextId: nat, k: Address)
    requires Accounted(reg, q, called, dropped, nextId) && k in reg
    ensures Accounted(reg - {k}, q, called, dropped + {reg[k].id}, nextId) == true
  {
    var reg1: Registry := reg - {k};
    var dropped1 := dropped + {reg[k].id};
    assert TableId(reg, q, called, dropped, nextId, k);
    forall a {:trigger QueueId(q, called, dropped1, nextId, a)} | 0 <= a < |q| ensures QueueId(q, called, dropped1, nextId, a) {
      assert QueueId(q, called, dropped, nextId, a);
    }
    forall a {:trigger CalledId(called, dropped1, nextId, a)} | 0 <= a < |called|
      ensures CalledId(called, dropped1, nextId, a)
    {
      assert CalledId(called, dropped, nextId, a);
      assert called[a] in called;
    }
    forall c {:trigger TableId(reg1, q, called, dropped1, nextId, c)} | c in reg1
      ensures TableId(reg1, q, called, dropped1, nextId, c)
    {
      assert TableId(reg, q, called, dropped, nextId, c);
    }
    forall id {:trigger Somewhere(reg1, q, called, dropped1, id)} | 0 <= id < nextId
      ensures Somewhere(reg1, q, called, dropped1, id)
    {
      assert Somewhere(reg, q, called, dropped, id);
      if InTable(reg, id) {
        var c :| c in reg && reg[c].id == id;
        assert c != k ==> reg1[c].id == id;
      }
    }
  }

  /** What is registered for key k is replaced; the record stays the same. */
  lemma AccountUpdate(reg: Registry, q: seq<Ready>, called: seq<nat>, dropped: set<nat>, nextId: nat, k: Address, r: Rec)
    requires Accounted(reg, q, called, dropped, nextId) && k in reg && r.id == reg[k].id
    ensures Accounted(reg[k := r], q, called, dropped, nextId) == true
  {
    var reg1: Registry := reg[k := r];
    forall c {:trigger TableId(reg1, q, called, dropped, nextId, c)} | c in reg1
      ensures TableId(reg1, q, called, dropped, nextId, c)
    {
      assert TableId(reg, q, called, dropped, nextId, c);
      forall d {:trigger reg1[d]} | d in reg1 && d != c ensures reg1[d].id != reg1[c].id {
        assert reg1[d].id == reg[d].id && reg1[c].id == reg[c].id;
      }
    }
    forall id {:trigger Somewhere(reg1, q, called, dropped, id)} | 0 <= id < nextId
      ensures Somewhere(reg1, q, called, dropped, id)
    {
      assert Somewhere(reg, q, called, dropped, id);
      if InTable(reg, id) {
        var c :| c in reg && reg[c].id == id;
        assert reg1[c].id == id;
      }
    }
  }

  // ------------------------------------------------------------------------------------- Java finalization

  /** The record waits until nothing else refers to its object. */
  predicate Awaits(r: Ready) {
    r.rec.mp == WhenUnreachable
  }

  /** Such records have objects of their own in the queue, which are not registered anew. */
  ghost predicate Separate(q: seq<Ready>, reg: Registry) {
    && (forall a {:trigger q[a]} | 0 <= a < |q| && Awaits(q[a]) :: q[a].base !in reg)
    && (forall a, b {:trigger q[a], q[b]} | 0 <= a < b < |q| && Awaits(q[a]) && Awaits(q[b]) :: q[a].base != q[b].base)
  }

  type Chains = seq<seq<Link<Rec>>>

  /** The second loop for Java finalization marks the objects that waiting records of q have, and ... */
  function MarkedAfter(q: seq<Ready>, m: set<int>): set<int> {
    if q == [] then m else MarkedAfter(q[1..], if Awaits(q[0]) then m + {q[0].base} else m)
  }

  /** ... those whose objects were marked already, in m or by an earlier one, go back to the table: ... */
  function Returned(q: seq<Ready>, m: set<int>): seq<Ready> {
    if q == [] then []
    else if Awaits(q[0]) && q[0].base in m then [q[0]] + Returned(q[1..], m)
    else Returned(q[1..], if Awaits(q[0]) then m + {q[0].base} else m)
  }

  /** ... all others stay in the queue. */
  function Kept(q: seq<Ready>, m: set<int>): seq<Ready> {
    if q == [] then []
    else if Awaits(q[0]) && q[0].base in m then Kept(q[1..], m)
    else [q[0]] + Kept(q[1..], if Awaits(q[0]) then m + {q[0].base} else m)
  }

  function PushOne(h: Chains, lg: nat, r: Ready): Chains {
    var i := Hash(r.base, lg);
    if 0 <= i < |h| then h[i := [Link(Hide(r.base), r.rec)] + h[i]] else h
  }

  /** The chains once the records of rs were pushed. */
  function PushAll(h: Chains, lg: nat, rs: seq<Ready>): Chains
    decreases |rs|
  {
    if rs == [] then h else PushAll(PushOne(h, lg, rs[0]), lg, rs[1..])
  }

  function EnterAll(m: Registry, rs: seq<Ready>): Registry
    decreases |rs|
  {
    if rs == [] then m else EnterAll(m[rs[0].base := rs[0].rec], rs[1..])
  }

  /** The objects of rs are not registered, and all different. */
  predicate Fresh(rs: seq<Ready>, m: Registry) {
    rs == [] || (rs[0].base !in m && Fresh(rs[1..], m[rs[0].base := rs[0].rec]))
  }

  /** The loop has gone over a part of the queue; the records of kept are still in it, before those of rest. */
  ghost predicate RevivedSoFar(q0: seq<Ready>, m0: set<int>, h0: Chains, e0: nat, lg: nat, kept: seq<Ready>,
                               rest: seq<Ready>, m: set<int>, h: Chains, e: nat)
  {
    && Kept(q0, m0) == kept + Kept(rest, m) && MarkedAfter(q0, m0) == MarkedAfter(rest, m)
    && PushAll(h0, lg, Returned(q0, m0)) == PushAll(h, lg, Returned(rest, m))
    && e0 + |Returned(q0, m0)| == e + |Returned(rest, m)|
  }

  lemma ReviveOne(q0: seq<Ready>, m0: set<int>, h0: Chains, e0: nat, lg: nat, kept: seq<Ready>, r: Ready,
                  rest: seq<Ready>, m: set<int>, h: Chains, e: nat)
    requires RevivedSoFar(q0, m0, h0, e0, lg, kept, [r] + rest, m, h, e)
    ensures if Awaits(r) && r.base in m then RevivedSoFar(q0, m0, h0, e0, lg, kept, rest, m, PushOne(h, lg, r), e + 1) == true
            else RevivedSoFar(q0, m0, h0, e0, lg, kept + [r], rest, if Awaits(r) then m + {r.base} else m, h, e) == true
  {
    assert ([r] + rest)[1..] == rest;
    if Awaits(r) && r.base in m {
      var rs := Returned([r] + rest, m);
      assert rs == [r] + Returned(rest, m) && rs[1..] == Returned(rest, m);
      assert m + {r.base} == m;
    } else {
      var m1 := if Awaits(r) then m + {r.base} else m;
      assert kept + ([r] + Kept(rest, m1)) == (kept + [r]) + Kept(rest, m1);
    }
  }

  /** A chain has two entries for key k. */
  ghost predicate Twice(h: Chains, lg: nat, k: Address) {
    0 <= Hash(k, lg) < |h| && exists a, b :: 0 <= a < b < |h[Hash(k, lg)]| && Key(h[Hash(k, lg)][a]) == k && Key(h[Hash(k, lg)][b]) == k
  }

  /** The chains hold a map. */
  ghost predicate IsTable(h: Chains, lg: nat) {
    exists m: Registry :: Holds(h, lg, m)
  }

  lemma TwiceIsNoTable(h: Chains, lg: nat, k: Address)
    requires Twice(h, lg, k)
    ensures !IsTable(h, lg)
  {
    forall m: Registry ensures !Holds(h, lg, m) {
      TwiceHoldsNothing(h, lg, k, m);
    }
  }

  lemma TwiceHoldsNothing(h: Chains, lg: nat, k: Address, m: Registry)
    requires Twice(h, lg, k)
    ensures !Holds(h, lg, m)
  {
    var a, b :| 0 <= a < b < |h[Hash(k, lg)]| && Key(h[Hash(k, lg)][a]) == k && Key(h[Hash(k, lg)][b]) == k;
    assert h[Hash(k, lg)][b].hidden == h[Hash(k, lg)][a].hidden;
    assert !OnlyAt(h[Hash(k, lg)], a);
    assert !EntryOk(h, lg, m, Hash(k, lg), a);
  }

  lemma {:induction false} TwiceStays(h: Chains, lg: nat, rs: seq<Ready>, k: Address)
    requires Twice(h, lg, k)
    ensures Twice(PushAll(h, lg, rs), lg, k)
    decreases |rs|
  {
    if rs != [] {
      var h1 := PushOne(h, lg, rs[0]);
      var a, b :| 0 <= a < b < |h[Hash(k, lg)]| && Key(h[Hash(k, lg)][a]) == k && Key(h[Hash(k, lg)][b]) == k;
      var d := if Hash(rs[0].base, lg) == Hash(k, lg) then 1 else 0;
      assert h1[Hash(k, lg)][a + d] == h[Hash(k, lg)][a] && h1[Hash(k, lg)][b + d] == h[Hash(k, lg)][b];
      TwiceStays(h1, lg, rs[1..], k);
    }
  }

  /** Pushing a registered key leaves two entries for it. */
  lemma PushedTwice(h: Chains, lg: nat, m: Registry, r: Ready)
    requires Holds(h, lg, m) && r.base in m
    ensures Twice(PushOne(h, lg, r), lg, r.base)
  {
    var j := PresentWhere(h, lg, m, r.base);
    var h1, i := PushOne(h, lg, r), Hash(r.base, lg);
    assert h1[i][0] == Link(Hide(r.base), r.rec) && h1[i][j + 1] == h[i][j];
    assert Key(h1[i][0]) == r.base;
  }

  /** After the records of rs were pushed the chains hold a map, with no key twice, exactly if their objects were not
      registered and are all different. */
  lemma {:induction false} TableIff(h: Chains, lg: nat, m: Registry, rs: seq<Ready>)
    requires Holds(h, lg, m)
    ensures IsTable(PushAll(h, lg, rs), lg) <==> Fresh(rs, m)
    ensures Fresh(rs, m) ==> Holds(PushAll(h, lg, rs), lg, EnterAll(m, rs)) && |EnterAll(m, rs)| == |m| + |rs|
    decreases |rs|
  {
    if rs == [] {
      assert Holds(PushAll(h, lg, rs), lg, m);
    } else {
      var r := rs[0];
      assert PushAll(h, lg, rs) == PushAll(PushOne(h, lg, r), lg, rs[1..]);
      if r.base !in m {
        HoldsPush(h, lg, m, r.base, r.rec);
        TableIff(PushOne(h, lg, r), lg, m[r.base := r.rec], rs[1..]);
      } else {
        PushedTwice(h, lg, m, r);
        TwiceStays(PushOne(h, lg, r), lg, rs[1..], r.base);
        TwiceIsNoTable(PushAll(h, lg, rs), lg, r.base);
      }
    }
  }

  /** For example, when an object was registered anew while its earlier record waits in the queue. */
  lemma RegisteredWaiterClashes(h: Chains, lg: nat, m: Registry, marks: set<int>, r: Ready)
    requires Holds(h, lg, m) && r.base in m && Awaits(r) && r.base in marks
    ensures Kept([r], marks) == [] && Twice(PushAll(h, lg, Returned([r], marks)), lg, r.base)
  {
    assert [r][1..] == [] && Returned([], marks) == [];
    assert Returned([r], marks) == [r];
    PushedTwice(h, lg, m, r);
    assert PushAll(h, lg, [r]) == PushAll(PushOne(h, lg, r), lg, []);
  }

  lemma {:induction false} FreshAt(rs: seq<Ready>, m: Registry, i: int)
    requires Fresh(rs, m) && 0 <= i < |rs|
    ensures rs[i].base !in m && forall j | i < j < |rs| :: rs[i].base != rs[j].base
    decreases |rs|
  {
    var m1: Registry := m[rs[0].base := rs[0].rec];
    if i > 0 {
      FreshAt(rs[1..], m1, i - 1);
    } else {
      forall j | 0 < j < |rs| ensures rs[0].base != rs[j].base {
        FreshAt(rs[1..], m1, j - 1);
      }
    }
  }

  lemma {:induction false} SeparateIsFresh(q: seq<Ready>, m: set<int>, reg: Registry)
    requires Separate(q, reg)
    ensures Fresh(Returned(q, m), reg)
    decreases |q|
  {
    if q != [] {
      forall a {:trigger q[1..][a]} | 0 <= a < |q| - 1 ensures q[1..][a] == q[a + 1] {
      }
      if Awaits(q[0]) && q[0].base in m {
        SeparateIsFresh(q[1..], m, reg[q[0].base := q[0].rec]);
      } else {
        SeparateIsFresh(q[1..], if Awaits(q[0]) then m + {q[0].base} else m, reg);
      }
    }
  }

  /** A waiting record whose object is marked returns. */
  lemma {:induction false} MarkedReturns(q: seq<Ready>, m: set<int>, a: int) returns (i: int)
    requires 0 <= a < |q| && Awaits(q[a]) && q[a].base in m
    ensures 0 <= i < |Returned(q, m)| && Returned(q, m)[i] == q[a]
    decreases |q|
  {
    if a == 0 {
      i := 0;
    } else if Awaits(q[0]) && q[0].base in m {
      i := MarkedReturns(q[1..], m, a - 1);
      i := i + 1;
    } else {
      i := MarkedReturns(q[1..], if Awaits(q[0]) then m + {q[0].base} else m, a - 1);
    }
  }

  /** Two of them return in this order. */
  lemma {:induction false} BothReturn(q: seq<Ready>, m: set<int>, a: int, b: int) returns (i: int, j: int)
    requires 0 <= a < b < |q| && Awaits(q[a]) && q[a].base in m && Awaits(q[b]) && q[b].base in m
    ensures 0 <= i < j < |Returned(q, m)| && Returned(q, m)[i] == q[a] && Returned(q, m)[j] == q[b]
    decreases |q|
  {
    if a == 0 {
      i := 0;
      j := MarkedReturns(q[1..], m, b - 1);
      j := j + 1;
    } else if Awaits(q[0]) && q[0].base in m {
      i, j := BothReturn(q[1..], m, a - 1, b - 1);
      i, j := i + 1, j + 1;
    } else {
      i, j := BothReturn(q[1..], if Awaits(q[0]) then m + {q[0].base} else m, a - 1, b - 1);
    }
  }

  /** The part q0 of the queue, whose objects are all marked, decides whether what returns is fresh. */
  lemma FreshIff(added: seq<Ready>, q0: seq<Ready>, m: set<int>, reg: Registry)
    requires (forall r | r in q0 :: r.base in m) && (Separate(q0, reg) ==> Separate(added + q0, reg))
    ensures Fresh(Returned(added + q0, m), reg) <==> Separate(q0, reg)
  {
    var q, n := added + q0, |added|;
    if Separate(q0, reg) {
      SeparateIsFresh(q, m, reg);
    }
    if Fresh(Returned(q, m), reg) {
      forall a {:trigger q0[a]} | 0 <= a < |q0| && Awaits(q0[a]) ensures q0[a].base !in reg {
        assert q[n + a] == q0[a] && q0[a] in q0;
        var i := MarkedReturns(q, m, n + a);
        FreshAt(Returned(q, m), reg, i);
      }
      forall a, b {:trigger q0[a], q0[b]} | 0 <= a < b < |q0| && Awaits(q0[a]) && Awaits(q0[b])
        ensures q0[a].base != q0[b].base
      {
        assert q[n + a] == q0[a] && q[n + b] == q0[b] && q0[a] in q0 && q0[b] in q0;
        var i, j := BothReturn(q, m, n + a, n + b);
        FreshAt(Returned(q, m), reg, i);
      }
    }
  }

  /** The records are kept or return, as they waited for marked objects or not. */
  lemma {:induction false} KeptOrReturned(q: seq<Ready>, m: set<int>, r: Ready)
    ensures r in q <==> r in Kept(q, m) || r in Returned(q, m)
    ensures r in Returned(q, m) ==> Awaits(r)
    ensures r in q && Awaits(r) && r.base in m ==> r in Returned(q, m)
    decreases |q|
  {
    if q != [] {
      assert r in q <==> r == q[0] || r in q[1..];
      if Awaits(q[0]) && q[0].base in m {
        KeptOrReturned(q[1..], m, r);
      } else {
        KeptOrReturned(q[1..], if Awaits(q[0]) then m + {q[0].base} else m, r);
      }
    }
  }

  lemma {:induction false} Entered(m: Registry, rs: seq<Ready>, k: Address)
    ensures k in EnterAll(m, rs) <==> k in m || exists r :: r in rs && r.base == k
    ensures Fresh(rs, m) && k in m ==> EnterAll(m, rs)[k] == m[k]
    ensures Fresh(rs, m) ==> forall r | r in rs && r.base == k :: EnterAll(m, rs)[k] == r.rec
    decreases |rs|
  {
    if rs != [] {
      var m1: Registry := m[rs[0].base := rs[0].rec];
      Entered(m1, rs[1..], k);
      forall r | r in rs ensures r == rs[0] || r in rs[1..] {
      }
      assert rs[0] in rs && forall r | r in rs[1..] :: r in rs;
    }
  }

  /** What is left in the queue is apart again. */
  lemma {:induction false} KeptSeparate(q: seq<Ready>, m: set<int>, reg: Registry)
    requires Separate(q, reg)
    ensures Separate(Kept(q, m), EnterAll(reg, Returned(q, m)))
    decreases |q|
  {
    if q != [] {
      var q1 := q[1..];
      forall a {:trigger q1[a]} | 0 <= a < |q1| ensures q1[a] == q[a + 1] {
      }
      if Awaits(q[0]) && q[0].base in m {
        KeptSeparate(q1, m, reg[q[0].base := q[0].rec]);
      } else {
        var m1 := if Awaits(q[0]) then m + {q[0].base} else m;
        KeptSeparate(q1, m1, reg);
        KeptOne(q[0], q1, m1, reg);
      }
    }
  }

  lemma KeptOne(r: Ready, q: seq<Ready>, m: set<int>, reg: Registry)
    requires Separate(Kept(q, m), EnterAll(reg, Returned(q, m)))
    requires Awaits(r) ==> r.base !in reg && forall x | x in q && Awaits(x) :: x.base != r.base
    ensures Separate([r] + Kept(q, m), EnterAll(reg, Returned(q, m)))
  {
    var ks := Kept(q, m);
    if Awaits(r) {
      Entered(reg, Returned(q, m), r.base);
      forall x | x in Returned(q, m) ensures x.base != r.base {
        KeptOrReturned(q, m, x);
      }
      forall a | 0 <= a < |ks| && Awaits(ks[a]) ensures ks[a].base != r.base {
        KeptOrReturned(q, m, ks[a]);
      }
    }
  }

  /** All records stay accounted for when those that wait return. */
  lemma {:induction false} AccountReturned(reg: Registry, pre: seq<Ready>, q: seq<Ready>, m: set<int>, called: seq<nat>,
                                          dropped: set<nat>, nextId: nat)
    requires Accounted(reg, pre + q, called, dropped, nextId) == true && Fresh(Returned(q, m), reg)
    ensures Accounted(EnterAll(reg, Returned(q, m)), pre + Kept(q, m), called, dropped, nextId) == true
    decreases |q|
  {
    if q != [] {
      var n := |pre|;
      if Awaits(q[0]) && q[0].base in m {
        AccountRevive(reg, pre + q, called, dropped, nextId, n);
        assert (pre + q)[..n] + (pre + q)[n + 1..] == pre + q[1..];
        AccountReturned(reg[q[0].base := q[0].rec], pre, q[1..], m, called, dropped, nextId);
      } else {
        assert pre + q == (pre + [q[0]]) + q[1..];
        var m1 := if Awaits(q[0]) then m + {q[0].base} else m;
        AccountReturned(reg, pre + [q[0]], q[1..], m1, called, dropped, nextId);
        assert (pre + [q[0]]) + Kept(q[1..], m1) == pre + Kept(q, m);
      }
    }
  }
}
