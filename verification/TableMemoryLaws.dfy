/** Laws of the routing memory: coherence of its two maps over whole runs, what Forget leaves
    behind, when it undoes Remember, and independence of the order in which objects arrive. */
module TableMemoryLaws {
  import opened Keys
  import opened TableMemory

  const EMPTY: Memory := Memory(map[], map[])

  // ---- Coherence over runs

  /** Every store entry lies under a key its object claims, and is the object indexed by its name. */
  ghost predicate Coherent(tm: Memory) {
    && (forall s | s in tm.index :: IndexKey(tm.index[s].name) == s)
    && forall k | k in tm.store ::
         && k in KeysOf(tm.store[k])
         && IndexKey(tm.store[k].name) in tm.index
         && tm.index[IndexKey(tm.store[k].name)] == tm.store[k]
  }

  datatype Op = RememberOp(o: HTTPSO) | ForgetOp(n: NamespacedName)

  function Apply(tm: Memory, op: Op): Memory {
    match op
    case RememberOp(o) => Remembered(tm, o)
    case ForgetOp(n) => Forgotten(tm, n)
  }

  function Run(tm: Memory, ops: seq<Op>): Memory
    decreases |ops|
  {
    if ops == [] then tm else Run(Apply(tm, ops[0]), ops[1..])
  }

  /** A run in which a name is remembered again only after it was forgotten. */
  predicate Disciplined(tm: Memory, ops: seq<Op>)
    decreases |ops|
  {
    ops == [] ||
    ((ops[0].RememberOp? ==> IndexKey(ops[0].o.name) !in tm.index) && Disciplined(Apply(tm, ops[0]), ops[1..]))
  }

  lemma RememberCoherent(tm: Memory, o: HTTPSO)
    requires Coherent(tm) && IndexKey(o.name) !in tm.index
    ensures Coherent(Remembered(tm, o))
  {
    forall k | k in Remembered(tm, o).store
      ensures var v := Remembered(tm, o).store[k]; (v == o && k in KeysOf(o)) || (k in tm.store && v == tm.store[k])
    {
      OfferAllAt(tm.store, KeysOf(o), o, k);
    }
  }

  lemma ForgetCoherent(tm: Memory, n: NamespacedName)
    requires Coherent(tm)
    ensures Coherent(Forgotten(tm, n))
  {
    if IndexKey(n) in tm.index {
      forall k | k in Forgotten(tm, n).store
        ensures k in tm.store && Forgotten(tm, n).store[k] == tm.store[k] && IndexKey(tm.store[k].name) != IndexKey(n)
      {
        WithdrawAllAt(tm.store, KeysOf(tm.index[IndexKey(n)]), n, k);
        IndexKeyInjective(tm.store[k].name, n);
      }
    }
  }

  lemma {:induction false} RunsStayCoherent(tm: Memory, ops: seq<Op>)
    requires Coherent(tm) && Disciplined(tm, ops)
    ensures Coherent(Run(tm, ops))
    decreases |ops|
  {
    if ops != [] {
      match ops[0] {
        case RememberOp(o) => RememberCoherent(tm, o);
        case ForgetOp(n) => ForgetCoherent(tm, n);
      }
      RunsStayCoherent(Apply(tm, ops[0]), ops[1..]);
    }
  }

  /** Recall sees what was remembered or forgotten under the name, and nothing else changes for it. */
  lemma RecallLaws(tm: Memory, o: HTTPSO, m: NamespacedName)
    ensures Recall(Remembered(tm, o), Some(m)) == if m == o.name then Some(o) else Recall(tm, Some(m))
    ensures Recall(Forgotten(tm, o.name), Some(m)) == if m == o.name then None else Recall(tm, Some(m))
    ensures Recall(EMPTY, Some(m)) == None == Recall(tm, None)
  {
    IndexKeyInjective(m, o.name);
  }

  // ---- What Forget leaves behind

  ghost predicate Routes(tm: Memory, n: NamespacedName) {
    exists key :: Route(tm, key).Some? && Route(tm, key).value.name == n
  }

  lemma RoutesExactlyStored(tm: Memory, n: NamespacedName)
    ensures Routes(tm, n) <==> exists k | k in tm.store :: tm.store[k].name == n
  {
    if k :| k in tm.store && tm.store[k].name == n {
      assert Route(tm, k) == Some(tm.store[k]);
    }
  }

  /** After Forget no request reaches the name, exactly when before it every entry of the name lay
      under a key of the indexed object. */
  lemma ForgetExactly(tm: Memory, n: NamespacedName)
    ensures !Routes(Forgotten(tm, n), n) <==>
            forall k | k in tm.store && tm.store[k].name == n ::
              IndexKey(n) in tm.index && k in KeysOf(tm.index[IndexKey(n)])
  {
    RoutesExactlyStored(Forgotten(tm, n), n);
    if IndexKey(n) in tm.index {
      forall k
        ensures k in Forgotten(tm, n).store && Forgotten(tm, n).store[k].name == n <==>
                k in tm.store && tm.store[k].name == n && k !in KeysOf(tm.index[IndexKey(n)])
      {
        WithdrawAllAt(tm.store, KeysOf(tm.index[IndexKey(n)]), n, k);
      }
    }
  }

  /** So after a disciplined run, Forget always leaves no route to the name. */
  lemma ForgetLeavesNoRoute(ops: seq<Op>, n: NamespacedName)
    requires Disciplined(EMPTY, ops)
    ensures !Routes(Forgotten(Run(EMPTY, ops), n), n)
  {
    RunsStayCoherent(EMPTY, ops);
    ForgetExactly(Run(EMPTY, ops), n);
  }

  /** Remembering a changed object without forgetting it first leaves its old routes for good: any
      key that only the earlier version claims still routes to the name after Forget. */
  lemma UndisciplinedLeavesRoute(tm: Memory, o: HTTPSO, o': HTTPSO, k: Key)
    requires o.name == o'.name && k in KeysOf(o) && k !in KeysOf(o') && k !in tm.store
    ensures Routes(Forgotten(Remembered(Remembered(tm, o), o'), o.name), o.name)
  {
    OfferAllAt(tm.store, KeysOf(o), o, k);
    OfferAllAt(Remembered(tm, o).store, KeysOf(o'), o', k);
    ForgetExactly(Remembered(Remembered(tm, o), o'), o.name);
  }

  /** Remember and then Forget, key by key: a key o claims ends up free unless an older object of
      another name holds it, every other key as it was. */
  lemma RememberForgetAt(tm: Memory, o: HTTPSO, k: Key)
    ensures var back := Forgotten(Remembered(tm, o), o.name).store;
            if k in KeysOf(o) && !(k in tm.store && tm.store[k].created < o.created &&
                tm.store[k].name != o.name) then k !in back
            else (k in back <==> k in tm.store) && (k in back ==> back[k] == tm.store[k])
  {
    OfferAllAt(tm.store, KeysOf(o), o, k);
    WithdrawAllAt(Remembered(tm, o).store, KeysOf(o), o.name, k);
  }

  /** Forget undoes Remember exactly when the name was new and the object displaced nobody. */
  lemma ForgetUndoesRemember(tm: Memory, o: HTTPSO)
    requires Coherent(tm)
    ensures Forgotten(Remembered(tm, o), o.name) == tm <==>
            && IndexKey(o.name) !in tm.index
            && forall k | k in KeysOf(o) && k in tm.store :: tm.store[k].created < o.created
  {
    var s, back := IndexKey(o.name), Forgotten(Remembered(tm, o), o.name);
    assert back.index == tm.index - {s};
    if s !in tm.index {
      assert back.index == tm.index;
      assert forall k | k in tm.store :: tm.store[k].name != o.name;
      if k :| k in KeysOf(o) && k in tm.store && tm.store[k].created >= o.created {
        RememberForgetAt(tm, o, k);
      } else {
        forall k
          ensures (k in back.store <==> k in tm.store) && (k in back.store ==> back.store[k] == tm.store[k])
        {
          RememberForgetAt(tm, o, k);
        }
        assert back.store == tm.store;
      }
    }
  }

  // ---- Building a memory from a set of objects

  /** The memory after remembering objects in the given order, starting from nothing. */
  function MemoryOf(order: seq<HTTPSO>): Memory {
    if order == [] then EMPTY else Remembered(MemoryOf(order[..|order| - 1]), order[|order| - 1])
  }

  /** v is the oldest of the given objects that claim k. */
  ghost predicate IsOldest(v: HTTPSO, objects: seq<HTTPSO>, k: Key) {
    v in objects && k in KeysOf(v) && forall o | o in objects && k in KeysOf(o) :: v.created <= o.created
  }

  /** Whatever the order, a key is stored exactly when some object claims it, and it is held by an
      object of minimal creation time among its claimants. */
  lemma {:induction false} OldestWins(order: seq<HTTPSO>, k: Key)
    ensures var store := MemoryOf(order).store;
            && (k in store <==> exists o | o in order :: k in KeysOf(o))
            && (k in store ==> IsOldest(store[k], order, k))
  {
    if order != [] {
      var m := |order| - 1;
      OldestWins(order[..m], k);
      OfferAllAt(MemoryOf(order[..m]).store, KeysOf(order[m]), order[m], k);
      assert forall o :: o in order <==> o in order[..m] || o == order[m];
    }
  }

  /** The objects of a registry, each under its own name. */
  predicate WellNamed(objs: map<NamespacedName, HTTPSO>) {
    forall n | n in objs :: objs[n].name == n
  }

  predicate Distinct(order: seq<HTTPSO>) {
    forall i, j | 0 <= i < j < |order| :: order[i].name != order[j].name
  }

  /** order lists every registered object exactly once. */
  ghost predicate Enumerates(order: seq<HTTPSO>, objs: map<NamespacedName, HTTPSO>) {
    && Distinct(order)
    && (forall o | o in order :: o.name in objs && objs[o.name] == o)
    && forall n | n in objs :: objs[n] in order
  }

  /** tm results from remembering the registered objects in some order. */
  ghost predicate BuiltFrom(tm: Memory, objs: map<NamespacedName, HTTPSO>) {
    exists order :: Enumerates(order, objs) && tm == MemoryOf(order)
  }

  /** Rebuilds the memory from the registry, visiting the map in an order Go leaves open. */
  method NewMemoryFromHTTPSOs(objs: map<NamespacedName, HTTPSO>) returns (tm: Memory)
    requires WellNamed(objs)
    ensures BuiltFrom(tm, objs)
  {
    tm := EMPTY;
    ghost var order: seq<HTTPSO> := [];
    var rest := objs.Keys;
    while rest != {}
      invariant rest <= objs.Keys
      invariant tm == MemoryOf(order)
      invariant Distinct(order) && forall o | o in order :: o.name !in rest
      invariant forall o | o in order :: o.name in objs && objs[o.name] == o
      invariant forall n | n in objs && n !in rest :: objs[n] in order
      decreases rest
    {
      var n :| n in rest;
      tm := Remember(tm, Some(objs[n]));
      assert (order + [objs[n]])[..|order|] == order;
      order := order + [objs[n]];
      rest := rest - {n};
    }
    assert Enumerates(order, objs);
  }

  /** The memory of a registry: its index is the registry by name, and each key is held by an
      oldest claimant. */
  lemma BuiltFromMeans(tm: Memory, objs: map<NamespacedName, HTTPSO>, k: Key)
    requires BuiltFrom(tm, objs)
    ensures k in tm.store <==> exists n | n in objs :: k in KeysOf(objs[n])
    ensures k in tm.store ==>
              var v := tm.store[k];
              v.name in objs && objs[v.name] == v && k in KeysOf(v) &&
              forall n | n in objs && k in KeysOf(objs[n]) :: v.created <= objs[n].created
  {
    var order :| Enumerates(order, objs) && tm == MemoryOf(order);
    OldestWins(order, k);
    if n :| n in objs && k in KeysOf(objs[n]) {
      assert objs[n] in order;
    }
  }

  lemma EnumerationExists(objs: map<NamespacedName, HTTPSO>) returns (order: seq<HTTPSO>)
    requires WellNamed(objs)
    ensures Enumerates(order, objs)
  {
    order := [];
    var rest := objs.Keys;
    while rest != {}
      invariant rest <= objs.Keys && Distinct(order)
      invariant forall o | o in order :: o.name !in rest
      invariant forall o | o in order :: o.name in objs && objs[o.name] == o
      invariant forall n | n in objs && n !in rest :: objs[n] in order
      decreases rest
    {
      var n :| n in rest;
      order := order + [objs[n]];
      rest := rest - {n};
    }
  }

  /** The registered object of that name is an oldest claimant of the key. */
  ghost predicate OldestFor(objs: map<NamespacedName, HTTPSO>, n: NamespacedName, k: Key) {
    n in objs && k in KeysOf(objs[n]) && forall m | m in objs && k in KeysOf(objs[m]) ::
        objs[n].created <= objs[m].created
  }

  /** No key has two oldest claimants. */
  ghost predicate NoTies(objs: map<NamespacedName, HTTPSO>) {
    forall k, m, n | OldestFor(objs, m, k) && OldestFor(objs, n, k) :: m == n
  }

  /** The index of a list of objects, some of which may share a name. */
  lemma {:induction false} IndexOf(order: seq<HTTPSO>, s: string)
    ensures var index := MemoryOf(order).index;
            && (s in index <==> exists o | o in order :: IndexKey(o.name) == s)
            && (s in index ==> index[s] in order && IndexKey(index[s].name) == s)
  {
    if order != [] {
      var m := |order| - 1;
      IndexOf(order[..m], s);
      assert forall o :: o in order <==> o in order[..m] || o == order[m];
    }
  }

  lemma EnumeratesLast(front: seq<HTTPSO>, objs: map<NamespacedName, HTTPSO>, n: NamespacedName)
    requires WellNamed(objs) && n in objs && Enumerates(front, objs - {n})
    ensures Enumerates(front + [objs[n]], objs)
  {
    var order := front + [objs[n]];
    assert order[|front|] == objs[n];
    forall m | m in objs
      ensures objs[m] in order
    {
      if m != n {
        assert (objs - {n})[m] in front;
      }
    }
  }

  /** The last object takes every key of its own for which no earlier one is older. */
  lemma LastTakes(front: seq<HTTPSO>, o: HTTPSO, k: Key)
    requires k in KeysOf(o) && forall p | p in front && k in KeysOf(p) :: o.created <= p.created
    ensures var store := MemoryOf(front + [o]).store; k in store && store[k] == o
  {
    assert (front + [o])[..|front|] == front;
    OldestWins(front, k);
    OfferAllAt(MemoryOf(front).store, KeysOf(o), o, k);
  }

  /** Of several oldest claimants of a key, the one remembered last holds it, and each can be last. */
  lemma LastOldestHolds(objs: map<NamespacedName, HTTPSO>, n: NamespacedName, k: Key) returns (tm: Memory)
    requires WellNamed(objs) && OldestFor(objs, n, k)
    ensures BuiltFrom(tm, objs) && k in tm.store && tm.store[k] == objs[n]
  {
    var front := EnumerationExists(objs - {n});
    EnumeratesLast(front, objs, n);
    LastTakes(front, objs[n], k);
    tm := MemoryOf(front + [objs[n]]);
  }

  /** The order in which the map is visited leaves no trace exactly when no key has two oldest
      claimants. */
  lemma BuildIsUnique(objs: map<NamespacedName, HTTPSO>)
    requires WellNamed(objs)
    ensures (forall tm, tm' | BuiltFrom(tm, objs) && BuiltFrom(tm', objs) :: tm == tm') <==> NoTies(objs)
  {
    if NoTies(objs) {
      forall tm, tm' | BuiltFrom(tm, objs) && BuiltFrom(tm', objs)
        ensures tm == tm'
      {
        SameBuild(tm, tm', objs);
      }
    } else {
      var k, m, n :| OldestFor(objs, m, k) && OldestFor(objs, n, k) && m != n;
      var tm := LastOldestHolds(objs, m, k);
      var tm' := LastOldestHolds(objs, n, k);
      assert tm.store[k] != tm'.store[k];
    }
  }

  lemma SameBuild(tm: Memory, tm': Memory, objs: map<NamespacedName, HTTPSO>)
    requires BuiltFrom(tm, objs) && BuiltFrom(tm', objs) && NoTies(objs)
    ensures tm == tm'
  {
    forall k
      ensures (k in tm.store <==> k in tm'.store) && (k in tm.store ==> tm.store[k] == tm'.store[k])
    {
      SameHolder(tm, tm', objs, k);
    }
    assert tm.store == tm'.store;
    SameIndex(tm, tm', objs);
  }

  lemma SameHolder(tm: Memory, tm': Memory, objs: map<NamespacedName, HTTPSO>, k: Key)
    requires BuiltFrom(tm, objs) && BuiltFrom(tm', objs) && NoTies(objs)
    ensures (k in tm.store <==> k in tm'.store) && (k in tm.store ==> tm.store[k] == tm'.store[k])
  {
    BuiltFromMeans(tm, objs, k);
    BuiltFromMeans(tm', objs, k);
    if k in tm.store {
      assert OldestFor(objs, tm.store[k].name, k) && OldestFor(objs, tm'.store[k].name, k);
    }
  }

  /** The index holds the registered objects, each under its own name. */
  lemma IndexMeans(tm: Memory, objs: map<NamespacedName, HTTPSO>, s: string)
    requires BuiltFrom(tm, objs)
    ensures s in tm.index ==>
              var v := tm.index[s]; IndexKey(v.name) == s && v.name in objs && objs[v.name] == v
    ensures forall n | n in objs && IndexKey(n) == s && objs[n].name == n :: s in tm.index
  {
    var order :| Enumerates(order, objs) && tm == MemoryOf(order);
    IndexOf(order, s);
  }

  lemma SameIndex(tm: Memory, tm': Memory, objs: map<NamespacedName, HTTPSO>)
    requires BuiltFrom(tm, objs) && BuiltFrom(tm', objs)
    ensures tm.index == tm'.index
  {
    forall s
      ensures (s in tm.index <==> s in tm'.index) && (s in tm.index ==> tm.index[s] == tm'.index[s])
    {
      IndexMeans(tm, objs, s);
      IndexMeans(tm', objs, s);
      if s in tm.index && s in tm'.index {
        IndexKeyInjective(tm.index[s].name, tm'.index[s].name);
      }
    }
  }
}
