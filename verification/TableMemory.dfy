/** The routing memory (pkg/routing/tablememory.go): an index of objects by name and a store of
    objects by key, in which the oldest claimant of a key wins. The two immutable radix trees are
    finite maps, and the lookup of the store is by longest prefix. */
module TableMemory {
  import opened Keys

  /** Namespaces are DNS labels, so they contain no slash. */
  type Label = s: Bytes | '/' !in s

  datatype NamespacedName = NamespacedName(namespace: Label, name: Bytes)

  /** How a rate-scaled object wants its requests bucketed. */
  datatype Rate = Rate(window: int, granularity: int)

  datatype HTTPSO = HTTPSO(name: NamespacedName, created: int, hosts: Option<seq<string>>,
                           pathPrefixes: Option<seq<string>>, rate: Option<Rate>)

  datatype Memory = Memory(index: map<string, HTTPSO>, store: map<Key, HTTPSO>)

  /** NamespacedName.String, the key of the index. */
  function IndexKey(n: NamespacedName): Bytes {
    n.namespace + "/" + n.name
  }

  lemma IndexKeyInjective(a: NamespacedName, b: NamespacedName)
    ensures IndexKey(a) == IndexKey(b) <==> a == b
  {
    if IndexKey(a) == IndexKey(b) {
      FirstSegment(a.namespace, b.namespace, a.name, b.name);
      FirstSegment(b.namespace, a.namespace, b.name, a.name);
    }
  }

  function KeysOf(o: HTTPSO): seq<Key> {
    KeysFor(OrBlank(o.hosts), OrBlank(o.pathPrefixes))
  }

  // ---- Remember

  /** Offer o for one key: it takes the key unless an older object holds it. */
  function Offer(store: map<Key, HTTPSO>, k: Key, o: HTTPSO): map<Key, HTTPSO> {
    if k in store && o.created > store[k].created then store else store[k := o]
  }

  function OfferAll(store: map<Key, HTTPSO>, keys: seq<Key>, o: HTTPSO): map<Key, HTTPSO> {
    if keys == [] then store
    else Offer(OfferAll(store, keys[..|keys| - 1], o), keys[|keys| - 1], o)
  }

  lemma OfferNext(store: map<Key, HTTPSO>, keys: seq<Key>, i: nat, o: HTTPSO)
    requires i < |keys|
    ensures OfferAll(store, keys[..i + 1], o) == Offer(OfferAll(store, keys[..i], o), keys[i], o)
  {
    assert keys[..i + 1][..i] == keys[..i];
  }

  function Remembered(tm: Memory, o: HTTPSO): Memory {
    Memory(tm.index[IndexKey(o.name) := o], OfferAll(tm.store, KeysOf(o), o))
  }

  method Remember(tm: Memory, httpso: Option<HTTPSO>) returns (r: Memory)
    ensures r == match httpso case None => tm case Some(o) => Remembered(tm, o)
  {
    if httpso == None {
      return tm;
    }
    var o := httpso.value;
    var keys := NewKeys(o.hosts, o.pathPrefixes);
    var store := tm.store;
    for i := 0 to |keys|
      invariant store == OfferAll(tm.store, keys[..i], o)
    {
      var newStore := store[keys[i] := o];
      OfferNext(tm.store, keys, i, o);
      if keys[i] in store && o.created > store[keys[i]].created {
        continue;
      }
      store := newStore;
    }
    assert keys[..|keys|] == keys;
    r := Memory(tm.index[IndexKey(o.name) := o], store);
  }

  /** Remember key by key: o takes exactly the keys it claims that no older object holds. */
  lemma {:induction false} OfferAllAt(store: map<Key, HTTPSO>, keys: seq<Key>, o: HTTPSO, k: Key)
    ensures var s := OfferAll(store, keys, o);
            if k in keys && !(k in store && o.created > store[k].created) then k in s && s[k] == o
            else (k in s <==> k in store) && (k in s ==> s[k] == store[k])
  {
    if keys != [] {
      OfferAllAt(store, keys[..|keys| - 1], o, k);
      assert keys == keys[..|keys| - 1] + [keys[|keys| - 1]];
    }
  }

  // ---- Forget

  /** Withdraw name n from one key: only an entry of that name is deleted. */
  function Withdraw(store: map<Key, HTTPSO>, k: Key, n: NamespacedName): map<Key, HTTPSO> {
    if k in store && store[k].name == n then store - {k} else store
  }

  function WithdrawAll(store: map<Key, HTTPSO>, keys: seq<Key>, n: NamespacedName): map<Key, HTTPSO> {
    if keys == [] then store
    else Withdraw(WithdrawAll(store, keys[..|keys| - 1], n), keys[|keys| - 1], n)
  }

  lemma WithdrawNext(store: map<Key, HTTPSO>, keys: seq<Key>, i: nat, n: NamespacedName)
    requires i < |keys|
    ensures WithdrawAll(store, keys[..i + 1], n) == Withdraw(WithdrawAll(store, keys[..i], n), keys[i], n)
  {
    assert keys[..i + 1][..i] == keys[..i];
  }

  function Forgotten(tm: Memory, n: NamespacedName): Memory {
    if IndexKey(n) !in tm.index then tm
    else Memory(tm.index - {IndexKey(n)}, WithdrawAll(tm.store, KeysOf(tm.index[IndexKey(n)]), n))
  }

  /** Forgetting no name at all yields no memory at all. */
  method Forget(tm: Memory, name: Option<NamespacedName>) returns (r: Option<Memory>)
    ensures r == match name case None => None case Some(n) => Some(Forgotten(tm, n))
  {
    if name == None {
      return None;
    }
    var n := name.value;
    if IndexKey(n) !in tm.index {
      return Some(tm);
    }
    var o := tm.index[IndexKey(n)];
    var keys := NewKeys(o.hosts, o.pathPrefixes);
    var store := tm.store;
    for i := 0 to |keys|
      invariant store == WithdrawAll(tm.store, keys[..i], n)
    {
      WithdrawNext(tm.store, keys, i, n);
      if !(keys[i] in store && store[keys[i]].name == n) {
        continue;
      }
      store := store - {keys[i]};
    }
    assert keys[..|keys|] == keys;
    r := Some(Memory(tm.index - {IndexKey(n)}, store));
  }

  /** Forget key by key: the entries of the name under the given keys go, everything else stays. */
  lemma {:induction false} WithdrawAllAt(store: map<Key, HTTPSO>, keys: seq<Key>, n: NamespacedName, k: Key)
    ensures var s := WithdrawAll(store, keys, n);
            if k in keys && k in store && store[k].name == n then k !in s
            else (k in s <==> k in store) && (k in s ==> s[k] == store[k])
  {
    if keys != [] {
      WithdrawAllAt(store, keys[..|keys| - 1], n, k);
      assert keys == keys[..|keys| - 1] + [keys[|keys| - 1]];
    }
  }

  function Recall(tm: Memory, name: Option<NamespacedName>): Option<HTTPSO> {
    match name
    case None => None
    case Some(n) => if IndexKey(n) in tm.index then Some(tm.index[IndexKey(n)]) else None
  }

  // ---- Route

  /** The entry of the longest stored key that is a prefix of the given one. */
  function LongestPrefix(store: map<Key, HTTPSO>, key: Key): (r: Option<HTTPSO>)
    ensures r.None? <==> forall k | k in store :: !(k <= key)
    ensures r.Some? ==> exists k | k in store ::
              k <= key && store[k] == r.value && forall k' | k' in store && k' <= key :: |k'| <= |k|
  {
    if key in store then Some(store[key])
    else if key == "" then None
    else
      var shorter := key[..|key| - 1];
      assert forall k | k in store :: k <= key <==> k <= shorter by {
        forall k | k in store { ProperPrefix(k, key); }
      }
      LongestPrefix(store, shorter)
  }

  lemma ProperPrefix(k: string, key: string)
    requires k != key && key != ""
    ensures k <= key <==> k <= key[..|key| - 1]
  {
    if k <= key {
      assert k == key[..|k|] && |k| < |key|;
    }
  }

  function Route(tm: Memory, key: Key): Option<HTTPSO> {
    LongestPrefix(tm.store, key)
  }
}
