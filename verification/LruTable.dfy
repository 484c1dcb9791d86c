/** The LRU map on the hash table it is built on: lru_map_impl (src/terark/lru_map.hpp) reserves its
    capacity in gold_hash_tab (src/terark/gold_hash_map.hpp) once, and relies on the table never to
    rehash or to grow, since victims stay in slots that no chain reaches. */
module LruTable {

  import opened LruProtocol
  import GoldHash

  ghost predicate Inserts(e: Event) {
    e.AddNew? || e.EvictEnd?
  }

  /** The elements that the table counts when the insertion of an event looks at its load; the slot
      of a destroyed victim is free by then. */
  ghost function Load(s: State, e: Event): int {
    if e.EvictEnd? then Size(s) - 1 else Size(s)
  }

  /** The maximal load after `reserve(cap)`. */
  function MaxLoadFor(cap: nat, loadFactor: nat): nat
    requires loadFactor > 0
  {
    GoldHash.MaxLoad(GoldHash.NextPrime(GoldHash.BucketsFor(cap, loadFactor)), loadFactor)
  }

  /** An insertion finds less than `cap` elements, and a free slot or one never used. */
  lemma RoomToInsert(s: State, e: Event)
    requires Inv(s) && Enabled(s, e) && Inserts(e)
    ensures Load(s, e) < s.cap && s.nElem <= s.cap
    ensures e.AddNew? && s.free == [] ==> s.nElem < s.cap
  {
    assert Storage(s);
  }

  /** No insertion of any run of the map makes its table rehash if and only if the load fits. */
  lemma NeverRehashesIff(cap: nat, loadFactor: nat)
    requires cap <= GoldHash.DELMARK && 10 <= loadFactor <= 255
    ensures (forall es, e :: Runs(Init(cap), es) && Enabled(After(Init(cap), es), e) && Inserts(e) ==>
               Load(After(Init(cap), es), e) < MaxLoadFor(cap, loadFactor)) <==>
            GoldHash.LoadFits(cap, loadFactor)
  {
    GoldHash.EnoughBuckets(cap, loadFactor);
    var most := MaxLoadFor(cap, loadFactor);
    assert cap <= most <==> GoldHash.LoadFits(cap, loadFactor);
    hide GoldHash.LoadFits, MaxLoadFor, Inv, Enabled, Runs, After, Filled;
    if cap <= most {
      forall es, e | Runs(Init(cap), es) && Enabled(After(Init(cap), es), e) && Inserts(e)
        ensures Load(After(Init(cap), es), e) < most
      {
        InvInit(cap);
        InvRuns(Init(cap), es);
        CapRuns(Init(cap), es);
        RoomToInsert(After(Init(cap), es), e);
      }
    } else {
      var es := Fill(cap, most);
      var s, e := After(Init(cap), es), AddNew(0, LongKey(most));
      FillAdd(s, most);
      FilledSize(s, most);
      assert Runs(Init(cap), es) && Enabled(s, e) && Inserts(e) && !(Load(s, e) < most);
    }
  }

  lemma FilledSize(s: State, n: nat)
    requires Filled(s, n)
    ensures Size(s) == n
  {
  }

  // ------------------------------------------------------------------ the events on the table

  /** The slots of the victims that are being destroyed. */
  ghost function Victims(threads: map<Tid, Phase>): set<nat> {
    set t | t in threads && threads[t].Evictor? :: threads[t].slot
  }

  /** The table holds exactly the linked nodes, under their keys and in their slots. */
  ghost predicate Mirrors(nodes: map<nat, Node>, at: map<Key, nat>) {
    && (forall k :: k in at ==> at[k] in nodes && nodes[at[k]].key == k)
    && (forall x :: x in nodes ==> nodes[x].key in at && at[nodes[x].key] == x)
  }

  ghost predicate Backs(table: GoldHash.Table, s: State)
    reads table
  {
    && table.Valid() && table.reuse && !table.autoGc
    && |table.data| == s.cap <= table.maxload
    && Mirrors(s.nodes, table.at)
    && table.free == s.free && table.nElem == s.nElem && table.detached == Victims(s.threads)
  }

  /** A table reserved for a capacity whose load fits can back an empty map. */
  method Reserved(hash: Key -> nat, cap: nat) returns (table: GoldHash.Table)
    requires 2 < cap <= GoldHash.DELMARK && GoldHash.LoadFits(cap, 179)
    ensures Backs(table, Init(cap)) && fresh(table)
  {
    hide GoldHash.LoadFits, GoldHash.NextPrime, GoldHash.MaxLoad, GoldHash.Table.Valid, GoldHash.Table.Contents;
    table := new GoldHash.Table(hash);
    table.Reserve(cap);
    NothingStored(table);
    assert Victims(map[]) == {};
  }

  lemma NothingStored(table: GoldHash.Table)
    requires table.Valid() && table.nElem == 0
    ensures table.at == map[] && table.free == [] && table.detached == {}
  {
  }

  /** The slot of a linked node holds its key, and a chain reaches it. */
  lemma OnTable(table: GoldHash.Table, s: State, x: nat)
    requires Backs(table, s) && x in s.nodes
    ensures x < table.nElem && x < |table.data| && GoldHash.Linked(table.data, table.at, x)
    ensures table.data[x].key == s.nodes[x].key
  {
    assert GoldHash.HasKey(table.data, table.at[s.nodes[x].key], s.nodes[x].key);
  }

  /** The insertion inside an event: no more buckets, no more slots. */
  method Insert(table: GoldHash.Table, ghost cap: nat, k: Key, value: GoldHash.Value) returns (slot: nat)
    requires table.Valid() && table.reuse && !table.autoGc && k !in table.at
    requires |table.data| == cap <= table.maxload && table.nElem - |table.free| < cap
    modifies table
    ensures table.Valid() && table.reuse && !table.autoGc
    ensures |table.data| == cap <= table.maxload && |table.bucket| == old(|table.bucket|)
    ensures slot == if old(table.free) == [] then old(table.nElem) else old(table.free)[0]
    ensures table.at == old(table.at)[k := slot] && table.detached == old(table.detached)
    ensures table.free == if old(table.free) == [] then [] else old(table.free)[1..]
    ensures table.nElem == old(table.nElem) + if old(table.free) == [] then 1 else 0
  {
    FreeCount(table);
    hide GoldHash.Table.Valid, GoldHash.Table.Contents;
    var inserted;
    slot, inserted := table.LazyInsert(k, value);
  }

  lemma FreeCount(table: GoldHash.Table)
    requires table.Valid()
    ensures table.freelistSize == |table.free| && table.nElem <= |table.data| <= GoldHash.DELMARK
  {
  }

  lemma Vacant(nodes: map<nat, Node>, at: map<Key, nat>, k: Key)
    requires Mirrors(nodes, at) && forall x :: x in nodes ==> nodes[x].key != k
    ensures k !in at
  {
  }

  /** AddNew: the key goes into a free slot, or the next one never used. */
  method Add(table: GoldHash.Table, ghost s: State, ghost t: Tid, k: Key, value: GoldHash.Value) returns (slot: nat)
    requires Inv(s) && Enabled(s, AddNew(t, k)) && Backs(table, s)
    modifies table
    ensures Backs(table, Next(s, AddNew(t, k)))
    ensures |table.bucket| == old(|table.bucket|) && |table.data| == old(|table.data|)
    ensures Next(s, AddNew(t, k)).threads[t] == Solver(slot)
  {
    RoomToInsert(s, AddNew(t, k));
    Vacant(s.nodes, table.at, k);
    Facts(s, AddNew(t, k));
    hide Inv, Mirrors, Victims, GoldHash.Table.Valid;
    ghost var at := table.at;
    slot := Insert(table, s.cap, k, value);
    ghost var x := slot;
    VictimsOther(s.threads, t, Solver(x));
    MirrorsLinked(s.nodes, at, k, x, Node(k, InProgress(t), 1, 0));
  }

  lemma VictimLinked(s: State, t: Tid, k: Key)
    requires Inv(s) && Enabled(s, EvictStart(t, k))
    ensures t !in s.threads && s.ring != []
    ensures var s' := Next(s, EvictStart(t, k)); var x := s.ring[|s.ring| - 1];
      && x in s.nodes && s'.nodes == s.nodes - {x} && s'.threads == s.threads[t := Evictor(x, k)]
      && s'.free == s.free && s'.nElem == s.nElem && s'.cap == s.cap
  {
    Facts(s, EvictStart(t, k));
    hide Inv;
  }

  /** EvictStart: the victim leaves its chain and keeps its slot and its element. */
  method StartEvict(table: GoldHash.Table, ghost s: State, ghost t: Tid, ghost k: Key, victim: nat)
    requires Inv(s) && Enabled(s, EvictStart(t, k)) && Backs(table, s) && victim == s.ring[|s.ring| - 1]
    modifies table
    ensures Backs(table, Next(s, EvictStart(t, k)))
    ensures |table.bucket| == old(|table.bucket|) && table.data == old(table.data)
  {
    hide Inv, Next, Enabled, Mirrors, Victims, GoldHash.Table.Valid, GoldHash.Linked;
    VictimLinked(s, t, k);
    OnTable(table, s, victim);
    MirrorsUnlinked(s.nodes, table.at, victim);
    VictimsMore(s.threads, t, victim, k);
    ghost var key := table.data[victim].key;
    table.RiskUnlink(victim);
    assert table.at == old(table.at) - {key};
  }

  /** EvictEnd: the slot of the victim is freed and taken at once for the new key, which must not
      have come back in the meantime. */
  method EndEvict(table: GoldHash.Table, ghost s: State, ghost t: Tid, k: Key, victim: nat, value: GoldHash.Value)
      returns (slot: nat)
    requires Inv(s) && Enabled(s, EvictEnd(t)) && Backs(table, s)
    requires s.threads[t] == Evictor(victim, k) && Absent(s, k)
    modifies table
    ensures Backs(table, Next(s, EvictEnd(t))) && slot == victim
    ensures |table.bucket| == old(|table.bucket|) && |table.data| == old(|table.data|)
  {
    RoomToInsert(s, EvictEnd(t));
    Vacant(s.nodes, table.at, k);
    Facts(s, EvictEnd(t));
    VictimsLess(s, t);
    hide Inv, Mirrors, Victims, GoldHash.Table.Valid;
    ghost var at := table.at;
    table.FastSlotFree(victim);
    slot := Insert(table, s.cap, k, value);
    MirrorsLinked(s.nodes, at, k, victim, Node(k, InProgress(t), 1, 0));
  }

  /** Drop: the last thread on a failed node erases it. */
  method DropLast(table: GoldHash.Table, ghost s: State, ghost t: Tid, x: nat)
    requires Inv(s) && Enabled(s, Drop(t)) && Backs(table, s)
    requires s.threads[t] == Failing(x) && s.nodes[x].refs == 1
    modifies table
    ensures Backs(table, Next(s, Drop(t)))
    ensures |table.bucket| == old(|table.bucket|) && |table.data| == old(|table.data|)
  {
    OnTable(table, s, x);
    hide Inv, Mirrors, Victims, GoldHash.Table.Valid;
    MirrorsUnlinked(s.nodes, table.at, x);
    VictimsGone(s.threads, t);
    table.EraseI(x);
  }

  /** Every other event leaves the table as it is. */
  lemma OtherEvents(table: GoldHash.Table, s: State, e: Event)
    requires Inv(s) && Enabled(s, e) && Backs(table, s)
    requires !Inserts(e) && !e.EvictStart? && (e.Drop? ==> s.nodes[s.threads[e.t].slot].refs > 1)
    ensures Backs(table, Next(s, e))
  {
    SameKeys(s, e);
    SameVictims(s, e);
    hide Inv, Next, Victims, GoldHash.Table.Valid, Mirrors;
    MirrorsSame(s.nodes, Next(s, e).nodes, table.at);
  }

  lemma SameKeys(s: State, e: Event)
    requires Inv(s) && Enabled(s, e)
    requires !Inserts(e) && !e.EvictStart? && (e.Drop? ==> s.nodes[s.threads[e.t].slot].refs > 1)
    ensures var s' := Next(s, e);
      && s'.nodes.Keys == s.nodes.Keys && s'.free == s.free && s'.nElem == s.nElem && s'.cap == s.cap
      && (forall x :: x in s.nodes ==> s'.nodes[x].key == s.nodes[x].key)
  {
    SameStorage(s, e);
    hide Inv, Next, Enabled;
    forall x: nat
      ensures x in Next(s, e).nodes <==> x in s.nodes
      ensures x in s.nodes ==> Next(s, e).nodes[x].key == s.nodes[x].key
    {
      SameNode(s, e, x);
    }
  }

  lemma SameStorage(s: State, e: Event)
    requires Enabled(s, e)
    requires !Inserts(e) && !e.EvictStart? && (e.Drop? ==> s.nodes[s.threads[e.t].slot].refs > 1)
    ensures Next(s, e).free == s.free && Next(s, e).nElem == s.nElem && Next(s, e).cap == s.cap
  {
  }

  lemma SameNode(s: State, e: Event, x: nat)
    requires Enabled(s, e)
    requires !Inserts(e) && !e.EvictStart? && (e.Drop? ==> s.nodes[s.threads[e.t].slot].refs > 1)
    ensures x in Next(s, e).nodes <==> x in s.nodes
    ensures x in s.nodes ==> Next(s, e).nodes[x].key == s.nodes[x].key
  {
    hide Without, Absent;
  }

  lemma SameVictims(s: State, e: Event)
    requires Inv(s) && Enabled(s, e) && !Inserts(e) && !e.EvictStart?
    ensures Victims(Next(s, e).threads) == Victims(s.threads)
  {
    var s' := Next(s, e);
    OwnThread(s, e);
    hide Inv, Next, Enabled, Victims;
    if e.t in s'.threads { VictimsOther(s.threads - {e.t}, e.t, s'.threads[e.t]); }
    VictimsGone(s.threads, e.t);
  }

  lemma OwnThread(s: State, e: Event)
    requires Enabled(s, e) && !Inserts(e) && !e.EvictStart?
    ensures var ts, ts' := s.threads, Next(s, e).threads;
      && (e.t in ts ==> !ts[e.t].Evictor?) && (e.t in ts' ==> !ts'[e.t].Evictor?)
      && ts' == if e.t in ts' then (ts - {e.t})[e.t := ts'[e.t]] else ts - {e.t}
  {
    hide Without, Absent;
  }

  lemma VictimsOther(threads: map<Tid, Phase>, t: Tid, p: Phase)
    requires t !in threads && !p.Evictor?
    ensures Victims(threads[t := p]) == Victims(threads)
  {
    forall x | x in Victims(threads) ensures x in Victims(threads[t := p]) {
      var u :| u in threads && threads[u].Evictor? && threads[u].slot == x;
      assert u in threads[t := p] && threads[t := p][u].Evictor?;
    }
  }

  lemma VictimsMore(threads: map<Tid, Phase>, t: Tid, x: nat, k: Key)
    requires t !in threads
    ensures Victims(threads[t := Evictor(x, k)]) == Victims(threads) + {x}
  {
    var threads' := threads[t := Evictor(x, k)];
    forall y | y in Victims(threads) ensures y in Victims(threads') {
      var u :| u in threads && threads[u].Evictor? && threads[u].slot == y;
      assert u in threads' && threads'[u].Evictor?;
    }
    assert t in threads' && threads'[t].Evictor?;
  }

  lemma VictimsGone(threads: map<Tid, Phase>, t: Tid)
    requires t in threads ==> !threads[t].Evictor?
    ensures Victims(threads - {t}) == Victims(threads)
  {
    forall y | y in Victims(threads) ensures y in Victims(threads - {t}) {
      var u :| u in threads && threads[u].Evictor? && threads[u].slot == y;
      assert u in threads - {t};
    }
  }

  /** Each evictor has a victim of its own. */
  lemma VictimsLess(s: State, t: Tid)
    requires Inv(s) && Enabled(s, EvictEnd(t))
    ensures s.threads[t].slot in Victims(s.threads)
    ensures Victims(Next(s, EvictEnd(t)).threads) == Victims(s.threads) - {s.threads[t].slot}
  {
    assert Phases(s);
    var threads, p := s.threads, Next(s, EvictEnd(t)).threads[t];
    assert Next(s, EvictEnd(t)).threads == (threads - {t})[t := p] && !p.Evictor?;
    VictimsRest(threads, t);
    hide Inv, Next, Enabled, Victims;
    VictimsOther(threads - {t}, t, p);
  }

  lemma VictimsRest(threads: map<Tid, Phase>, t: Tid)
    requires t in threads && threads[t].Evictor?
    requires forall u :: u in threads && u != t && threads[u].Evictor? ==> threads[u].slot != threads[t].slot
    ensures threads[t].slot in Victims(threads)
    ensures Victims(threads - {t}) == Victims(threads) - {threads[t].slot}
  {
    forall y | y in Victims(threads) && y != threads[t].slot ensures y in Victims(threads - {t}) {
      var u :| u in threads && threads[u].Evictor? && threads[u].slot == y;
      assert u in threads - {t};
    }
  }

  lemma MirrorsLinked(nodes: map<nat, Node>, at: map<Key, nat>, k: Key, x: nat, n: Node)
    requires Mirrors(nodes, at) && k !in at && x !in nodes && n.key == k
    ensures Mirrors(nodes[x := n], at[k := x])
  {
  }

  lemma MirrorsSame(nodes: map<nat, Node>, nodes': map<nat, Node>, at: map<Key, nat>)
    requires Mirrors(nodes, at) && nodes'.Keys == nodes.Keys
    requires forall x :: x in nodes ==> nodes'[x].key == nodes[x].key
    ensures Mirrors(nodes', at)
  {
  }

  lemma MirrorsUnlinked(nodes: map<nat, Node>, at: map<Key, nat>, x: nat)
    requires Mirrors(nodes, at) && x in nodes
    ensures Mirrors(nodes - {x}, at - {nodes[x].key})
  {
  }
}
