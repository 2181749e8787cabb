/**
 The copy-on-write cache: a map that is read without a lock and replaced as a
 whole under one.  Calls are interleaved at every access to shared state.
 */
module Cache {

  /** A call of GetOrElseUpdate and how far it has got; from Locked to Stored it holds the mutex. */
  datatype Call<K, V> =
    | Called(key: K)
    | Missed(key: K)
    | Created(key: K, value: V)
    | Locked(key: K, value: V)
    | Copying(key: K, value: V, last: map<K, V>, copy: map<K, V>, rest: set<K>)
    | Copied(key: K, value: V, copy: map<K, V>)
    | Stored(key: K, value: V)
    | Returned(key: K, value: V)

  /** `snapshots` are the maps published so far, the current one last. */
  datatype State<K, V> = State(snapshots: seq<map<K, V>>, mutex: set<int>, calls: map<int, Call<K, V>>)

  datatype Event<K> = Begin(id: int, key: K) | CopyEntry(id: int, entry: K) | Step(id: int)

  function Initial<K, V>(): State<K, V> {
    State([map[]], {}, map[])
  }

  function Current<K, V>(s: State<K, V>): map<K, V>
    requires s.snapshots != []
  {
    s.snapshots[|s.snapshots| - 1]
  }

  predicate Enabled<K(==), V>(s: State<K, V>, e: Event<K>) {
    && s.snapshots != []
    && match e
       case Begin(id, _) => id !in s.calls
       case CopyEntry(id, entry) =>
         && id in s.calls && s.calls[id].Copying?
         && entry in s.calls[id].rest && entry in s.calls[id].last
       case Step(id) =>
         && id in s.calls
         && (match s.calls[id]
             case Created(_, _) => s.mutex == {}
             case Copying(_, _, _, _, rest) => rest == {}
             case Returned(_, _) => false
             case _ => true)
  }

  /** `create(key)` is the value computed for a key. */
  function Next<K(==), V>(create: K -> V, s: State<K, V>, e: Event<K>): State<K, V>
    requires Enabled(s, e)
  {
    match e
    case Begin(id, key) => s.(calls := s.calls[id := Called(key)])
    case CopyEntry(id, entry) =>
      var c := s.calls[id];
      s.(calls := s.calls[id := c.(copy := c.copy[entry := c.last[entry]], rest := c.rest - {entry})])
    case Step(id) =>
      match s.calls[id]
      case Called(key) =>
        s.(calls := s.calls[id := if key in Current(s) then Returned(key, Current(s)[key]) else Missed(key)])
      case Missed(key) => s.(calls := s.calls[id := Created(key, create(key))])
      case Created(key, value) => s.(mutex := {id}, calls := s.calls[id := Locked(key, value)])
      case Locked(key, value) =>
        s.(calls := s.calls[id := Copying(key, value, Current(s), map[], Current(s).Keys)])
      case Copying(key, value, _, copy, _) => s.(calls := s.calls[id := Copied(key, value, copy[key := value])])
      case Copied(key, value, copy) =>
        s.(snapshots := s.snapshots + [copy], calls := s.calls[id := Stored(key, value)])
      case Stored(key, value) => s.(mutex := {}, calls := s.calls[id := Returned(key, value)])
      case Returned(_, _) => s
  }

  ghost predicate Run<K(!new), V(!new)>(create: K -> V, s: State<K, V>, events: seq<Event<K>>, t: State<K, V>)
    decreases |events|
  {
    if events == [] then s == t
    else Enabled(s, events[0]) && Run(create, Next(create, s, events[0]), events[1..], t)
  }

  // ----- the invariant -----

  ghost predicate Agrees<K, V>(create: K -> V, m: map<K, V>) {
    forall k :: k in m ==> m[k] == create(k)
  }

  predicate HoldsMutex<K, V>(c: Call<K, V>) {
    c.Locked? || c.Copying? || c.Copied? || c.Stored?
  }

  ghost predicate CallOk<K, V>(create: K -> V, s: State<K, V>, id: int)
    requires id in s.calls && s.snapshots != []
  {
    var c := s.calls[id];
    && (HoldsMutex(c) <==> id in s.mutex)
    && (!c.Called? && !c.Missed? ==> c.value == create(c.key))
    && (c.Copying? ==>
          c.last == Current(s) && Agrees(create, c.copy) && c.rest <= c.last.Keys &&
          c.last.Keys - c.rest <= c.copy.Keys)
    && (c.Copied? ==> Agrees(create, c.copy) && c.key in c.copy && Current(s).Keys <= c.copy.Keys)
    && (c.Stored? || c.Returned? ==> c.key in Current(s))
  }

  ghost predicate Inv<K, V>(create: K -> V, s: State<K, V>) {
    && s.snapshots != []
    && (forall i :: 0 <= i < |s.snapshots| ==> Agrees(create, s.snapshots[i]))
    && (forall i :: 0 < i < |s.snapshots| ==> s.snapshots[i - 1].Keys <= s.snapshots[i].Keys)
    && (forall id :: id in s.calls ==> CallOk(create, s, id))
    && (forall a, b :: a in s.mutex && b in s.mutex ==> a == b)
    && (forall id :: id in s.mutex ==> id in s.calls)
  }

  lemma NextKeepsInv<K(!new), V(!new)>(create: K -> V, s: State<K, V>, e: Event<K>)
    requires Inv(create, s) && Enabled(s, e)
    ensures Inv(create, Next(create, s, e))
    ensures s.snapshots <= Next(create, s, e).snapshots
  {
    var t := Next(create, s, e);
    SnapshotsKept(create, s, e);
    forall id | id in t.calls
      ensures CallOk(create, t, id)
    {
      CallIsKept(create, s, e, id);
    }
  }

  lemma SnapshotsKept<K(!new), V(!new)>(create: K -> V, s: State<K, V>, e: Event<K>)
    requires Inv(create, s) && Enabled(s, e)
    ensures (var t := Next(create, s, e);
             && t.snapshots != [] && s.snapshots <= t.snapshots
             && (forall i :: 0 <= i < |t.snapshots| ==> Agrees(create, t.snapshots[i]))
             && (forall i :: 0 < i < |t.snapshots| ==> t.snapshots[i - 1].Keys <= t.snapshots[i].Keys)
             && (forall a, b :: a in t.mutex && b in t.mutex ==> a == b)
             && (forall id :: id in t.mutex ==> id in t.calls))
  {
    assert e.Begin? || CallOk(create, s, e.id);
  }

  lemma CallIsKept<K(!new), V(!new)>(create: K -> V, s: State<K, V>, e: Event<K>, id: int)
    requires Inv(create, s) && Enabled(s, e) && id in Next(create, s, e).calls
    ensures Next(create, s, e).snapshots != [] && CallOk(create, Next(create, s, e), id)
  {
    assert e.Begin? || CallOk(create, s, e.id);
    assert id in s.calls ==> CallOk(create, s, id);
  }

  lemma {:induction false} RunKeepsInv<K(!new), V(!new)>(create: K -> V, s: State<K, V>, events: seq<Event<K>>,
                                                         t: State<K, V>)
    requires Inv(create, s) && Run(create, s, events, t)
    ensures Inv(create, t) && s.snapshots <= t.snapshots
    ensures forall id :: id in s.calls && s.calls[id].Returned? ==> id in t.calls && t.calls[id] == s.calls[id]
    decreases |events|
  {
    if events != [] {
      NextKeepsInv(create, s, events[0]);
      RunKeepsInv(create, Next(create, s, events[0]), events[1..], t);
    }
  }

  lemma InitialInv<K(!new), V(!new)>(create: K -> V)
    ensures Inv(create, Initial<K, V>())
  {
  }

  /** Every call that has returned gave the value of its key, whichever calls ran beside it, and every
      snapshot published agrees with that. */
  lemma CallsAgree<K(!new), V(!new)>(create: K -> V, events: seq<Event<K>>, s: State<K, V>)
    requires Run(create, Initial(), events, s)
    ensures forall id :: id in s.calls && s.calls[id].Returned? ==> s.calls[id].value == create(s.calls[id].key)
    ensures forall i :: 0 <= i < |s.snapshots| ==> Agrees(create, s.snapshots[i])
  {
    InitialInv(create);
    RunKeepsInv(create, Initial(), events, s);
    forall id | id in s.calls && s.calls[id].Returned?
      ensures s.calls[id].value == create(s.calls[id].key)
    {
      assert CallOk(create, s, id);
    }
  }

  lemma {:induction false} KeysGrow<K(!new), V(!new)>(create: K -> V, s: State<K, V>, i: nat, j: nat)
    requires Inv(create, s) && i <= j < |s.snapshots|
    ensures s.snapshots[i].Keys <= s.snapshots[j].Keys
    decreases j
  {
    if i < j {
      KeysGrow(create, s, i, j - 1);
    }
  }

  /** Snapshots never lose a key, and the key of a call that has returned is in the snapshot current then
      and in every one published later. */
  lemma KeysAreKept<K(!new), V(!new)>(create: K -> V, events: seq<Event<K>>, s: State<K, V>, more: seq<Event<K>>,
                                      t: State<K, V>, id: int)
    requires Run(create, Initial(), events, s) && Run(create, s, more, t)
    requires id in s.calls && s.calls[id].Returned?
    ensures 0 < |s.snapshots| <= |t.snapshots|
    ensures forall j :: |s.snapshots| - 1 <= j < |t.snapshots| ==> s.calls[id].key in t.snapshots[j]
    ensures forall i, j :: 0 <= i <= j < |t.snapshots| ==> t.snapshots[i].Keys <= t.snapshots[j].Keys
  {
    InitialInv(create);
    RunKeepsInv(create, Initial(), events, s);
    RunKeepsInv(create, s, more, t);
    assert CallOk(create, s, id);
    forall i, j | 0 <= i <= j < |t.snapshots|
      ensures t.snapshots[i].Keys <= t.snapshots[j].Keys
    {
      KeysGrow(create, t, i, j);
    }
    var now := |s.snapshots| - 1;
    assert t.snapshots[now] == s.snapshots[now] && s.calls[id].key in t.snapshots[now].Keys;
  }
}
