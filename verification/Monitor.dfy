/** The resource monitor's books: which slabs are allocated, which client holds them, and the counters beside them. */
module Monitor {
  import opened Counting

  const MAX_CLIENT := 32
  const MAX_FREE_MEM_GB := 32
  const FREE_MEM_EVICT_THRESHOLD := 10
  const FREE_MEM_EXPAND_THRESHOLD := 20

  datatype ConnState = ConnIdle | ConnConnected | ConnMapped

  /** The books at one moment; sess and mapped have one entry for each client slot. `outside` records that some access
      has left its array. */
  datatype Books = Books(malloc: seq<bool>, connMap: seq<int>, sizeGb: int, mappedSize: int,
                         states: seq<ConnState>, sess: seq<seq<int>>, mapped: seq<int>, connNum: int, outside: bool)

  ghost predicate Sized(b: Books) {
    && |b.malloc| == |b.connMap| == MAX_FREE_MEM_GB
    && |b.states| == |b.sess| == |b.mapped| == MAX_CLIENT
    && forall c | 0 <= c < MAX_CLIENT :: |b.sess[c]| == MAX_FREE_MEM_GB
  }

  function Owned(connMap: seq<int>): (flags: seq<bool>)
    ensures |flags| == |connMap| && forall i | 0 <= i < |connMap| :: flags[i] == (connMap[i] != -1)
  {
    seq(|connMap|, i requires 0 <= i < |connMap| => connMap[i] != -1)
  }

  function OwnedBy(connMap: seq<int>, c: int): (flags: seq<bool>)
    ensures |flags| == |connMap| && forall i | 0 <= i < |connMap| :: flags[i] == (connMap[i] == c)
  {
    seq(|connMap|, i requires 0 <= i < |connMap| => connMap[i] == c)
  }

  /** Slabs that are allocated and not given to anybody. */
  function Free(malloc: seq<bool>, connMap: seq<int>): (flags: seq<bool>)
    requires |malloc| == |connMap|
    ensures |flags| == |malloc| && forall i | 0 <= i < |malloc| :: flags[i] == (malloc[i] && connMap[i] == -1)
  {
    seq(|malloc|, i requires 0 <= i < |malloc| => malloc[i] && connMap[i] == -1)
  }

  function Busy(states: seq<ConnState>): (flags: seq<bool>)
    ensures |flags| == |states| && forall c | 0 <= c < |states| :: flags[c] == (states[c] != ConnIdle)
  {
    seq(|states|, c requires 0 <= c < |states| => states[c] != ConnIdle)
  }

  /** A client's own map lists exactly the slabs that the monitor has given to it. */
  ghost predicate Agrees(connMap: seq<int>, sess: seq<int>, c: int) {
    |sess| == |connMap| && forall i | 0 <= i < |connMap| :: sess[i] == if connMap[i] == c then i else -1
  }

  ghost predicate ClientOk(b: Books, c: nat)
    requires Sized(b) && c < MAX_CLIENT
  {
    b.states[c] != ConnIdle ==>
      && Agrees(b.connMap, b.sess[c], c)
      && b.mapped[c] == Count(OwnedBy(b.connMap, c))
      && (b.mapped[c] > 0 <==> b.states[c] == ConnMapped)
  }

  ghost predicate SlabOk(b: Books, i: nat)
    requires Sized(b) && i < MAX_FREE_MEM_GB
  {
    b.connMap[i] != -1 ==> b.malloc[i] && 0 <= b.connMap[i] < MAX_CLIENT && b.states[b.connMap[i]] != ConnIdle
  }

  /** The accounting invariant. */
  ghost predicate Balanced(b: Books) {
    && Sized(b) && !b.outside
    && b.sizeGb == Count(b.malloc) && b.mappedSize == Count(Owned(b.connMap)) && b.connNum == Count(Busy(b.states))
    && (forall i: nat | i < MAX_FREE_MEM_GB :: SlabOk(b, i))
    && forall c: nat | c < MAX_CLIENT :: ClientOk(b, c)
  }

  // ---------- What follows from the invariant ----------

  /** The memory that the monitor reports to clients is the number of free slabs. */
  lemma ReportedIsFree(b: Books)
    requires Balanced(b)
    ensures b.sizeGb - b.mappedSize == Count(Free(b.malloc, b.connMap))
  {
    forall i | 0 <= i < MAX_FREE_MEM_GB
      ensures b.malloc[i] == (Owned(b.connMap)[i] || Free(b.malloc, b.connMap)[i])
    {
      assert SlabOk(b, i);
    }
    CountSplit(b.malloc, Owned(b.connMap), Free(b.malloc, b.connMap));
  }

  /** The clients' counters below n, added up. */
  function MappedTotal(b: Books, n: nat): (total: int)
    requires Sized(b) && n <= MAX_CLIENT
  {
    if n == 0 then 0 else MappedTotal(b, n - 1) + if b.states[n - 1] != ConnIdle then b.mapped[n - 1] else 0
  }

  function OwnedBelow(connMap: seq<int>, n: int): (flags: seq<bool>)
    ensures |flags| == |connMap| && forall i | 0 <= i < |connMap| :: flags[i] == (0 <= connMap[i] < n)
  {
    seq(|connMap|, i requires 0 <= i < |connMap| => 0 <= connMap[i] < n)
  }

  lemma {:induction false} TotalIsOwned(b: Books, n: nat)
    requires Balanced(b) && n <= MAX_CLIENT
    ensures MappedTotal(b, n) == Count(OwnedBelow(b.connMap, n))
  {
    if n == 0 {
      CountNone(OwnedBelow(b.connMap, 0));
    } else {
      TotalIsOwned(b, n - 1);
      var c := n - 1;
      CountSplit(OwnedBelow(b.connMap, n), OwnedBelow(b.connMap, c), OwnedBy(b.connMap, c));
      assert ClientOk(b, c);
      if b.states[c] == ConnIdle {
        forall i | 0 <= i < MAX_FREE_MEM_GB ensures !OwnedBy(b.connMap, c)[i] {
          assert SlabOk(b, i);
        }
        CountNone(OwnedBy(b.connMap, c));
      }
    }
  }

  /** mapped_size is the sum of the clients' counters. */
  lemma MappedSizeIsTotal(b: Books)
    requires Balanced(b)
    ensures b.mappedSize == MappedTotal(b, MAX_CLIENT)
  {
    TotalIsOwned(b, MAX_CLIENT);
    forall i | 0 <= i < MAX_FREE_MEM_GB ensures Owned(b.connMap)[i] == OwnedBelow(b.connMap, MAX_CLIENT)[i] {
      assert SlabOk(b, i);
    }
    assert Owned(b.connMap) == OwnedBelow(b.connMap, MAX_CLIENT);
  }

  // ---------- The steps ----------

  /** How many slabs rdma_session_init allocates for this much free memory. */
  function InitialSlabs(freeMem: int): (n: nat)
    ensures n <= MAX_FREE_MEM_GB
    ensures freeMem <= FREE_MEM_EVICT_THRESHOLD ==> n == 0
    ensures n > 0 ==> n <= freeMem - FREE_MEM_EVICT_THRESHOLD
  {
    var g := if freeMem > FREE_MEM_EXPAND_THRESHOLD then freeMem - (FREE_MEM_EVICT_THRESHOLD + FREE_MEM_EXPAND_THRESHOLD) / 2
             else if freeMem > FREE_MEM_EVICT_THRESHOLD then freeMem - FREE_MEM_EVICT_THRESHOLD
             else 0;
    if g > MAX_FREE_MEM_GB then MAX_FREE_MEM_GB else g
  }

  lemma InitialSize(freeMem: int)
    ensures freeMem <= 10 ==> InitialSlabs(freeMem) == 0
    ensures 10 < freeMem <= 20 ==> InitialSlabs(freeMem) == freeMem - 10
    ensures 20 < freeMem < 47 ==> InitialSlabs(freeMem) == freeMem - 15
    ensures freeMem >= 47 ==> InitialSlabs(freeMem) == 32
  {}

  /** The books after rdma_session_init. */
  function InitialBooks(freeMem: int): (b: Books)
    ensures |b.malloc| == |b.connMap| == MAX_FREE_MEM_GB && |b.states| == |b.sess| == |b.mapped| == MAX_CLIENT
  {
    Books(seq(MAX_FREE_MEM_GB, i requires 0 <= i => i < InitialSlabs(freeMem)), seq(MAX_FREE_MEM_GB, _ => -1),
          InitialSlabs(freeMem), 0, seq(MAX_CLIENT, _ => ConnIdle), seq(MAX_CLIENT, _ => seq(MAX_FREE_MEM_GB, _ => -1)),
          seq(MAX_CLIENT, _ => 0), 0, false)
  }

  datatype Event =
    | Connect
    | Disconnect(c: nat)
    | Bind(c: nat, size: int)
    | Done(c: nat, flags: seq<bool>, evictG: int)
    | Expand(lastFree: int)
    | FreeUnmapped(stopG: nat)

  /** The first client slot that is idle, or the number of slots. */
  function FirstIdle(states: seq<ConnState>): (c: nat)
    ensures c <= |states| && forall d | 0 <= d < c :: states[d] != ConnIdle
    ensures c < |states| ==> states[c] == ConnIdle
  {
    if states == [] then 0
    else
      var c := FirstIdle(states[..|states| - 1]);
      if c < |states| - 1 || states[c] == ConnIdle then c else |states|
  }

  /** What each message and timer action needs of the moment it comes in: it comes over an existing connection. */
  ghost predicate Comes(b: Books, e: Event) {
    && Sized(b)
    && match e
       case Connect => true
       case Disconnect(c) => c < MAX_CLIENT && b.states[c] != ConnIdle
       case Bind(c, size) => c < MAX_CLIENT && b.states[c] != ConnIdle
       case Done(c, flags, evictG) => c < MAX_CLIENT && b.states[c] != ConnIdle && |flags| == MAX_FREE_MEM_GB
       case Expand(lastFree) => lastFree > FREE_MEM_EXPAND_THRESHOLD
       case FreeUnmapped(stopG) => stopG > 0
  }

  /** The flagged slabs that the client holds. */
  function Held(flags: seq<bool>, own: seq<int>): (held: seq<bool>)
    requires |flags| == |own|
    ensures |held| == |flags| && forall i | 0 <= i < |flags| :: held[i] == (flags[i] && own[i] != -1)
  {
    seq(|flags|, i requires 0 <= i < |flags| => flags[i] && own[i] != -1)
  }

  /** The slabs that a client's own map lists. */
  function Listed(own: seq<int>): (flags: seq<bool>)
    ensures |flags| == |own| && forall i | 0 <= i < |own| :: flags[i] == (own[i] != -1)
  {
    seq(|own|, i requires 0 <= i < |own| => own[i] != -1)
  }

  /** The most slabs that a loop takes which stops when its count reaches size. */
  function Most(size: int): (most: nat)
    ensures most > 0
  {
    if size <= 0 then MAX_FREE_MEM_GB + 1 else size
  }

  /** The slabs that a bind for `size` of them takes; the loop only stops early when its count reaches size. */
  function Taken(b: Books, size: int): (flags: seq<bool>)
    requires |b.malloc| == |b.connMap|
    ensures |flags| == |b.malloc|
  {
    First(Free(b.malloc, b.connMap), Most(size))
  }

  function Empty(malloc: seq<bool>): (flags: seq<bool>)
    ensures |flags| == |malloc| && forall i | 0 <= i < |malloc| :: flags[i] == !malloc[i]
  {
    seq(|malloc|, i requires 0 <= i < |malloc| => !malloc[i])
  }

  function ExpandSize(b: Books, lastFree: int): int {
    var want := lastFree - FREE_MEM_EXPAND_THRESHOLD;
    if want + b.sizeGb > MAX_FREE_MEM_GB then MAX_FREE_MEM_GB - b.sizeGb else want
  }

  function Expanded(b: Books, lastFree: int): (flags: seq<bool>)
    ensures |flags| == |b.malloc|
  {
    First(Empty(b.malloc), Most(ExpandSize(b, lastFree)))
  }

  function Mark(values: seq<int>, flags: seq<bool>, to: int): (r: seq<int>)
    requires |flags| == |values|
    ensures |r| == |values| && forall i | 0 <= i < |values| :: r[i] == if flags[i] then to else values[i]
  {
    seq(|values|, i requires 0 <= i < |values| => if flags[i] then to else values[i])
  }

  function MarkOwn(values: seq<int>, flags: seq<bool>): (r: seq<int>)
    requires |flags| == |values|
    ensures |r| == |values| && forall i | 0 <= i < |values| :: r[i] == if flags[i] then i else values[i]
  {
    seq(|values|, i requires 0 <= i < |values| => if flags[i] then i else values[i])
  }

  function Union(a: seq<bool>, b: seq<bool>): (r: seq<bool>)
    requires |a| == |b|
    ensures |r| == |a| && forall i | 0 <= i < |a| :: r[i] == (a[i] || b[i])
  {
    seq(|a|, i requires 0 <= i < |a| => a[i] || b[i])
  }

  function Minus(a: seq<bool>, b: seq<bool>): (r: seq<bool>)
    requires |a| == |b|
    ensures |r| == |a| && forall i | 0 <= i < |a| :: r[i] == (a[i] && !b[i])
  {
    seq(|a|, i requires 0 <= i < |a| => a[i] && !b[i])
  }

  /** The books after an event. */
  ghost function Step(b: Books, e: Event): (b': Books)
    requires Comes(b, e)
  {
    match e
    case Connect =>
      var c := FirstIdle(b.states);
      if c == MAX_CLIENT then b.(connNum := b.connNum + 1)
      else b.(states := b.states[c := ConnConnected], sess := b.sess[c := seq(MAX_FREE_MEM_GB, _ => -1)],
         mapped := b.mapped[c := 0], connNum := b.connNum + 1)
    case Disconnect(c) =>
      var gone := b.(states := b.states[c := ConnIdle], connNum := b.connNum - 1);
      if b.mapped[c] > 0
      then gone.(connMap := Mark(b.connMap, Listed(b.sess[c]), -1), mappedSize := b.mappedSize - b.mapped[c])
      else gone
    case Bind(c, size) =>
      b.(connMap := Mark(b.connMap, Taken(b, size), c), sess := b.sess[c := MarkOwn(b.sess[c], Taken(b, size))],
         mappedSize := b.mappedSize + size, mapped := b.mapped[c := b.mapped[c] + size],
         states := b.states[c := ConnMapped])
    case Done(c, flags, evictG) =>
      var held := Held(flags, b.sess[c]);
      b.(outside := b.outside || held != flags,
         malloc := Minus(b.malloc, held), connMap := Mark(b.connMap, held, -1),
         sess := b.sess[c := Mark(b.sess[c], held, -1)], sizeGb := b.sizeGb - evictG,
         mappedSize := b.mappedSize - evictG, mapped := b.mapped[c := b.mapped[c] - evictG],
         states := if b.mapped[c] - evictG == 0 then b.states[c := ConnConnected] else b.states)
    case Expand(lastFree) =>
      b.(malloc := Union(b.malloc, Expanded(b, lastFree)), sizeGb := b.sizeGb + ExpandSize(b, lastFree))
    case FreeUnmapped(stopG) =>
      var free := Free(b.malloc, b.connMap);
      b.(malloc := Minus(b.malloc, First(free, stopG)),
         sizeGb := b.sizeGb - if Count(free) < stopG then Count(free) else stopG)
  }

  /** Exactly when the invariant survives: a client slot is idle for a new connection, a bind finds as many slabs as it is
      for (and only a client that holds slabs binds none), and a DONE message flags slabs that its client holds and counts
      its flags. */
  ghost predicate Honest(b: Books, e: Event)
    requires Comes(b, e)
  {
    match e
    case Connect => FirstIdle(b.states) < MAX_CLIENT
    case Bind(c, size) =>
      var free := Count(Free(b.malloc, b.connMap));
      1 <= size <= free || (size == 0 && free == 0 && b.mapped[c] > 0)
    case Done(c, flags, evictG) => Held(flags, b.sess[c]) == flags && evictG == Count(flags)
    case _ => true
  }

  // ---------- Every step ----------

  /** A new connection keeps the books balanced exactly when a client slot is idle. */
  lemma ConnectBalanced(b: Books)
    requires Balanced(b) && Comes(b, Connect)
    ensures Balanced(Step(b, Connect)) <==> FirstIdle(b.states) < MAX_CLIENT
  {
    var c := FirstIdle(b.states);
    hide FirstIdle, Count;
    if c < MAX_CLIENT {
      ConnectedBalanced(b, c);
    }
  }

  lemma ConnectedBalanced(b: Books, c: nat)
    requires Balanced(b) && c < MAX_CLIENT && b.states[c] == ConnIdle
    ensures Balanced(b.(states := b.states[c := ConnConnected], sess := b.sess[c := seq(MAX_FREE_MEM_GB, _ => -1)],
                        mapped := b.mapped[c := 0], connNum := b.connNum + 1))
  {
    var b' := b.(states := b.states[c := ConnConnected], sess := b.sess[c := seq(MAX_FREE_MEM_GB, _ => -1)],
                 mapped := b.mapped[c := 0], connNum := b.connNum + 1);
    var fresh' := seq(MAX_CLIENT, d requires 0 <= d => d == c);
    CountOne(MAX_CLIENT, c);
    CountSplit(Busy(b'.states), Busy(b.states), fresh');
    forall i: nat | i < MAX_FREE_MEM_GB ensures SlabOk(b', i) {
      assert SlabOk(b, i);
    }
    forall i | 0 <= i < MAX_FREE_MEM_GB ensures !OwnedBy(b.connMap, c)[i] {
      assert SlabOk(b, i);
    }
    CountNone(OwnedBy(b.connMap, c));
    forall d: nat | d < MAX_CLIENT ensures ClientOk(b', d) {
      assert ClientOk(b, d);
    }
  }

  lemma DisconnectBalanced(b: Books, c: nat)
    requires Balanced(b) && Comes(b, Disconnect(c))
    ensures Balanced(Step(b, Disconnect(c)))
  {
    var b' := Step(b, Disconnect(c));
    var left := seq(MAX_CLIENT, d requires 0 <= d => d == c);
    CountOne(MAX_CLIENT, c);
    CountSplit(Busy(b.states), Busy(b'.states), left);
    assert ClientOk(b, c);
    assert Listed(b.sess[c]) == OwnedBy(b.connMap, c);
    CountNone(OwnedBy(b.connMap, c));
    CountSplit(Owned(b.connMap), Owned(b'.connMap), OwnedBy(b.connMap, c));
    forall i: nat | i < MAX_FREE_MEM_GB ensures SlabOk(b', i) {
      assert SlabOk(b, i);
    }
    forall d: nat | d < MAX_CLIENT ensures ClientOk(b', d) {
      assert ClientOk(b, d);
      if d != c {
        assert OwnedBy(b'.connMap, d) == OwnedBy(b.connMap, d);
      }
    }
  }

  /** How many slabs a bind takes. */
  lemma TakenCount(b: Books, size: int)
    requires Sized(b)
    ensures var free := Count(Free(b.malloc, b.connMap));
            Count(Taken(b, size)) == size <==> 1 <= size <= free || (size == 0 && free == 0)
  {
    CountFirst(Free(b.malloc, b.connMap), Most(size));
  }

  /** A bind keeps the books balanced exactly when it finds the slabs it is for. */
  lemma BindBalanced(b: Books, c: nat, size: int)
    requires Balanced(b) && Comes(b, Bind(c, size))
    ensures Balanced(Step(b, Bind(c, size))) <==> Honest(b, Bind(c, size))
  {
    var b' := Step(b, Bind(c, size));
    var taken := Taken(b, size);
    TakenCount(b, size);
    TakenAreFree(b, size);
    assert Busy(b'.states) == Busy(b.states);
    CountSplit(Owned(b'.connMap), Owned(b.connMap), taken);
    hide Taken, Count;
    if Honest(b, Bind(c, size)) {
      forall i: nat | i < MAX_FREE_MEM_GB ensures SlabOk(b', i) {
        assert SlabOk(b, i);
      }
      forall d: nat | d < MAX_CLIENT ensures ClientOk(b', d) {
        BindClient(b, c, size, d);
      }
    } else if Count(taken) == size {
      BindNothing(b, c, size);
    }
  }

  lemma BindClient(b: Books, c: nat, size: int, d: nat)
    requires Balanced(b) && Comes(b, Bind(c, size)) && Honest(b, Bind(c, size)) && d < MAX_CLIENT
    ensures ClientOk(Step(b, Bind(c, size)), d)
  {
    var b' := Step(b, Bind(c, size));
    var taken := Taken(b, size);
    TakenCount(b, size);
    TakenAreFree(b, size);
    assert ClientOk(b, d) && ClientOk(b, c);
    hide Taken, Count, SlabOk;
    if d == c {
      CountSplit(OwnedBy(b'.connMap, c), OwnedBy(b.connMap, c), taken);
    } else {
      assert OwnedBy(b'.connMap, d) == OwnedBy(b.connMap, d);
    }
  }

  /** A client that holds nothing and binds nothing counts as one that holds slabs. */
  lemma BindNothing(b: Books, c: nat, size: int)
    requires Balanced(b) && Comes(b, Bind(c, size)) && size == 0 && b.mapped[c] <= 0
    ensures !Balanced(Step(b, Bind(c, size)))
  {
    hide Taken, Count;
    assert Sized(Step(b, Bind(c, size))) ==> !ClientOk(Step(b, Bind(c, size)), c);
  }

  lemma TakenAreFree(b: Books, size: int)
    requires Sized(b)
    ensures forall i | 0 <= i < MAX_FREE_MEM_GB && Taken(b, size)[i] :: b.malloc[i] && b.connMap[i] == -1
  {}

  lemma FlaggedAreOwned(b: Books, c: nat, flags: seq<bool>)
    requires Balanced(b) && c < MAX_CLIENT && b.states[c] != ConnIdle && |flags| == MAX_FREE_MEM_GB
    requires Held(flags, b.sess[c]) == flags
    ensures forall i | 0 <= i < MAX_FREE_MEM_GB && flags[i] :: b.malloc[i] && b.connMap[i] == c
  {
    hide Count;
    assert ClientOk(b, c);
    forall i: nat | i < MAX_FREE_MEM_GB ensures flags[i] ==> b.malloc[i] && b.connMap[i] == c {
      assert Held(flags, b.sess[c])[i] == flags[i];
      assert SlabOk(b, i);
    }
  }

  lemma DoneClients(b: Books, c: nat, flags: seq<bool>, evictG: int, d: nat)
    requires Balanced(b) && Comes(b, Done(c, flags, evictG)) && Honest(b, Done(c, flags, evictG)) && d < MAX_CLIENT
    ensures ClientOk(Step(b, Done(c, flags, evictG)), d)
  {
    var b' := Step(b, Done(c, flags, evictG));
    FlaggedAreOwned(b, c, flags);
    assert ClientOk(b, d);
    hide Count, SlabOk;
    if d == c {
      CountSplit(OwnedBy(b.connMap, c), OwnedBy(b'.connMap, c), flags);
    } else {
      assert OwnedBy(b'.connMap, d) == OwnedBy(b.connMap, d);
    }
  }

  /** A DONE message keeps the books balanced exactly when it flags slabs of its client, and counts them. */
  lemma DoneBalanced(b: Books, c: nat, flags: seq<bool>, evictG: int)
    requires Balanced(b) && Comes(b, Done(c, flags, evictG))
    ensures Balanced(Step(b, Done(c, flags, evictG))) <==> Honest(b, Done(c, flags, evictG))
  {
    var b' := Step(b, Done(c, flags, evictG));
    hide Count, ClientOk;
    if Held(flags, b.sess[c]) == flags {
      FlaggedAreOwned(b, c, flags);
      CountSplit(b.malloc, b'.malloc, flags);
      if evictG == Count(flags) {
        assert Busy(b'.states) == Busy(b.states);
        CountSplit(Owned(b.connMap), Owned(b'.connMap), flags);
        forall i: nat | i < MAX_FREE_MEM_GB ensures SlabOk(b', i) {
          assert SlabOk(b, i);
        }
        forall d: nat | d < MAX_CLIENT ensures ClientOk(b', d) {
          DoneClients(b, c, flags, evictG, d);
        }
      }
    }
  }

  /** Allocating or freeing slabs that nobody owns only changes size_gb. */
  lemma AllocationBalanced(b: Books, b': Books)
    requires Balanced(b) && |b'.malloc| == MAX_FREE_MEM_GB && b' == b.(malloc := b'.malloc, sizeGb := b'.sizeGb)
    requires b'.sizeGb == Count(b'.malloc)
    requires forall i | 0 <= i < MAX_FREE_MEM_GB && b.connMap[i] != -1 :: b.malloc[i] ==> b'.malloc[i]
    ensures Balanced(b')
  {
    hide Count;
    forall i: nat | i < MAX_FREE_MEM_GB ensures SlabOk(b', i) {
      assert SlabOk(b, i);
    }
    forall d: nat | d < MAX_CLIENT ensures ClientOk(b', d) {
      assert ClientOk(b, d);
    }
  }

  lemma ExpandBalanced(b: Books, lastFree: int)
    requires Balanced(b) && Comes(b, Expand(lastFree))
    ensures Balanced(Step(b, Expand(lastFree)))
    ensures Count(Expanded(b, lastFree)) == ExpandSize(b, lastFree) >= 0
  {
    var size := ExpandSize(b, lastFree);
    var empty := Empty(b.malloc);
    var all := seq(MAX_FREE_MEM_GB, _ => true);
    CountBelow(MAX_FREE_MEM_GB, MAX_FREE_MEM_GB);
    assert all == seq(MAX_FREE_MEM_GB, i requires 0 <= i => i < MAX_FREE_MEM_GB);
    CountSplit(all, b.malloc, empty);
    CountFirst(empty, Most(size));
    var b' := Step(b, Expand(lastFree));
    CountSplit(b'.malloc, b.malloc, Expanded(b, lastFree));
    AllocationBalanced(b, b');
  }

  lemma FreeUnmappedBalanced(b: Books, stopG: nat)
    requires Balanced(b) && Comes(b, FreeUnmapped(stopG))
    ensures Balanced(Step(b, FreeUnmapped(stopG)))
  {
    var free := Free(b.malloc, b.connMap);
    var b' := Step(b, FreeUnmapped(stopG));
    CountFirst(free, stopG);
    CountSplit(b.malloc, b'.malloc, First(free, stopG));
    AllocationBalanced(b, b');
  }

  /** One step keeps the books balanced if and only if the event is honest. */
  lemma StepBalanced(b: Books, e: Event)
    requires Balanced(b) && Comes(b, e)
    ensures Balanced(Step(b, e)) <==> Honest(b, e)
  {
    match e
    case Connect => ConnectBalanced(b);
    case Disconnect(c) => DisconnectBalanced(b, c);
    case Bind(c, size) => BindBalanced(b, c, size);
    case Done(c, flags, evictG) => DoneBalanced(b, c, flags, evictG);
    case Expand(lastFree) => ExpandBalanced(b, lastFree);
    case FreeUnmapped(stopG) => FreeUnmappedBalanced(b, stopG);
  }

  // ---------- What every event keeps, honest or not ----------

  /** A client's own map lists slabs under their own numbers. */
  ghost predicate Indexed(b: Books) {
    && Sized(b)
    && forall c, i | 0 <= c < MAX_CLIENT && 0 <= i < MAX_FREE_MEM_GB :: b.sess[c][i] == i || b.sess[c][i] == -1
  }

  /** And what a connected client's map lists is allocated and given to that client, whatever the counters say. */
  ghost predicate Sound(b: Books) {
    && Indexed(b)
    && forall c, i | 0 <= c < MAX_CLIENT && b.states[c] != ConnIdle && 0 <= i < MAX_FREE_MEM_GB && b.sess[c][i] != -1 ::
         b.connMap[i] == c && b.malloc[i]
  }

  lemma InitialSound(freeMem: int)
    ensures Sound(InitialBooks(freeMem))
  {}

  lemma StepSound(b: Books, e: Event)
    requires Sound(b) && Comes(b, e)
    ensures Sound(Step(b, e))
  {
    var b' := Step(b, e);
    StepIndexed(b, e);
    forall c: nat, i: nat | c < MAX_CLIENT && b'.states[c] != ConnIdle && i < MAX_FREE_MEM_GB && b'.sess[c][i] != -1
      ensures b'.connMap[i] == c && b'.malloc[i]
    {
      SlabSound(b, e, c, i);
    }
    hide Step;
  }

  lemma StepIndexed(b: Books, e: Event)
    requires Indexed(b) && Comes(b, e)
    ensures Indexed(Step(b, e))
  {
    hide Taken, Count, FirstIdle;
  }

  lemma SlabSound(b: Books, e: Event, c: nat, i: nat)
    requires Sound(b) && Comes(b, e) && c < MAX_CLIENT && i < MAX_FREE_MEM_GB
    requires Sized(Step(b, e)) && Step(b, e).states[c] != ConnIdle && Step(b, e).sess[c][i] != -1
    ensures Step(b, e).connMap[i] == c && Step(b, e).malloc[i]
  {
    match e
    case Bind(d, size) => BindSlab(b, d, size, c, i);
    case Done(d, flags, evictG) => DoneSlab(b, d, flags, evictG, c, i);
    case Disconnect(d) =>
      OneLister(b, c, d, i);
      hide Listed;
    case FreeUnmapped(stopG) =>
      FirstOf(Free(b.malloc, b.connMap), stopG, i);
      hide First, Count;
    case _ =>
      hide FirstIdle, First, Count;
  }

  lemma BindSlab(b: Books, d: nat, size: int, c: nat, i: nat)
    requires Sound(b) && Comes(b, Bind(d, size)) && c < MAX_CLIENT && i < MAX_FREE_MEM_GB
    requires Step(b, Bind(d, size)).states[c] != ConnIdle && Step(b, Bind(d, size)).sess[c][i] != -1
    ensures Step(b, Bind(d, size)).connMap[i] == c && b.malloc[i]
  {
    TakenAreFree(b, size);
    hide Taken;
  }

  lemma DoneSlab(b: Books, d: nat, flags: seq<bool>, evictG: int, c: nat, i: nat)
    requires Sound(b) && Comes(b, Done(d, flags, evictG)) && c < MAX_CLIENT && i < MAX_FREE_MEM_GB
    requires Step(b, Done(d, flags, evictG)).states[c] != ConnIdle && Step(b, Done(d, flags, evictG)).sess[c][i] != -1
    ensures Step(b, Done(d, flags, evictG)).connMap[i] == c && Step(b, Done(d, flags, evictG)).malloc[i]
  {
    OneLister(b, c, d, i);
  }

  /** No two connected clients' maps list the same slab. */
  lemma OneLister(b: Books, c: nat, d: nat, i: nat)
    requires Sound(b) && c < MAX_CLIENT && d < MAX_CLIENT && i < MAX_FREE_MEM_GB
    requires b.states[c] != ConnIdle && b.states[d] != ConnIdle
    ensures b.sess[c][i] != -1 && b.sess[d][i] != -1 ==> c == d
  {
    assert b.sess[c][i] != -1 ==> b.connMap[i] == c;
    assert b.sess[d][i] != -1 ==> b.connMap[i] == d;
  }

  lemma FirstOf(flags: seq<bool>, n: nat, i: nat)
    requires i < |flags|
    ensures First(flags, n)[i] ==> flags[i]
  {}

  /** A slab that a client's map lists stays there until that client returns it or leaves. */
  lemma StaysListed(b: Books, e: Event, c: nat, i: nat)
    requires Sound(b) && Comes(b, e) && c < MAX_CLIENT && b.states[c] != ConnIdle && i < MAX_FREE_MEM_GB && b.sess[c][i] != -1
    requires e != Disconnect(c) && !(e.Done? && e.c == c && e.flags[i])
    ensures Step(b, e).states[c] != ConnIdle && Step(b, e).sess[c][i] != -1
  {
    hide Taken, Count;
  }

  // ---------- What each event changes ----------

  /** How many slabs are allocated and not given to anybody. */
  function Unowned(b: Books): (n: nat)
    requires Sized(b)
  {
    Count(Free(b.malloc, b.connMap))
  }

  lemma ConnectEffect(b: Books, c: nat)
    requires Comes(b, Connect)
    requires c <= MAX_CLIENT && (forall d | 0 <= d < c :: b.states[d] != ConnIdle) && (c < MAX_CLIENT ==> b.states[c] == ConnIdle)
    ensures var b' := Step(b, Connect);
            if c == MAX_CLIENT then b' == b.(connNum := b.connNum + 1)
            else
              && |b'.sess| == MAX_CLIENT && |b'.sess[c]| == MAX_FREE_MEM_GB
              && (forall i | 0 <= i < MAX_FREE_MEM_GB :: b'.sess[c][i] == -1)
              && b' == b.(states := b.states[c := ConnConnected], sess := b.sess[c := b'.sess[c]], mapped := b.mapped[c := 0],
                          connNum := b.connNum + 1)
  {
    FirstIdleIs(b.states, c);
    hide FirstIdle;
  }

  lemma FirstIdleIs(states: seq<ConnState>, c: nat)
    requires c <= |states| && (forall d | 0 <= d < c :: states[d] != ConnIdle) && (c < |states| ==> states[c] == ConnIdle)
    ensures FirstIdle(states) == c
  {
    hide FirstIdle;
  }

  /** A client that leaves takes with it what its own map lists. */
  lemma DisconnectEffect(b: Books, c: nat)
    requires Comes(b, Disconnect(c))
    ensures var b' := Step(b, Disconnect(c));
            && |b'.connMap| == MAX_FREE_MEM_GB
            && (forall i | 0 <= i < MAX_FREE_MEM_GB ::
                  b'.connMap[i] == if b.mapped[c] > 0 && b.sess[c][i] != -1 then -1 else b.connMap[i])
            && b' == b.(connMap := b'.connMap, states := b.states[c := ConnIdle], connNum := b.connNum - 1,
                        mappedSize := if b.mapped[c] > 0 then b.mappedSize - b.mapped[c] else b.mappedSize)
  {
    hide Count;
    if b.mapped[c] <= 0 {
      assert Step(b, Disconnect(c)).connMap == b.connMap;
    }
  }

  /** n unowned slabs have gone to client c, the lowest ones. */
  ghost predicate GivesLowest(b: Books, b': Books, c: nat, n: int)
    requires Sized(b) && Sized(b') && c < MAX_CLIENT
  {
    && (forall i | 0 <= i < MAX_FREE_MEM_GB && b'.connMap[i] != b.connMap[i] ::
          b.malloc[i] && b.connMap[i] == -1 && b'.connMap[i] == c)
    && (forall h, i | 0 <= h < i < MAX_FREE_MEM_GB && b'.connMap[i] != b.connMap[i] && b.malloc[h] && b.connMap[h] == -1 ::
          b'.connMap[h] == c)
    && Unowned(b') == Unowned(b) - n
    && (forall i | 0 <= i < MAX_FREE_MEM_GB :: b'.sess[c][i] == if b'.connMap[i] != b.connMap[i] then i else b.sess[c][i])
    && forall d | 0 <= d < MAX_CLIENT && d != c :: b'.sess[d] == b.sess[d]
  }

  /** A bind gives as many slabs as it is for, as far as there are any; for 0 or less it gives all. */
  lemma BindEffect(b: Books, c: nat, size: int)
    requires Comes(b, Bind(c, size))
    ensures var b' := Step(b, Bind(c, size));
            && Sized(b') && GivesLowest(b, b', c, if size <= 0 || size > Unowned(b) then Unowned(b) else size)
            && b' == b.(connMap := b'.connMap, sess := b'.sess, mappedSize := b.mappedSize + size,
                        mapped := b.mapped[c := b.mapped[c] + size], states := b.states[c := ConnMapped])
  {
    var b' := Step(b, Bind(c, size));
    var free, left, taken := Free(b.malloc, b.connMap), Free(b'.malloc, b'.connMap), Taken(b, size);
    FirstIsLowest(free, Most(size));
    CountWhole(free);
    CountAtMost(free, MAX_FREE_MEM_GB);
    TakenAreFree(b, size);
    CountSplit(free, left, taken);
    hide Count, First;
  }

  /** A DONE message frees the flagged slabs that its client's map lists; a flag on another one leaves the arrays. A client
      whose counter has come down to 0 is only connected. */
  lemma DoneEffect(b: Books, c: nat, flags: seq<bool>, evictG: int)
    requires Comes(b, Done(c, flags, evictG))
    ensures var b' := Step(b, Done(c, flags, evictG));
            && Sized(b')
            && (forall i | 0 <= i < MAX_FREE_MEM_GB && flags[i] && b.sess[c][i] != -1 ::
                  !b'.malloc[i] && b'.connMap[i] == -1 && b'.sess[c][i] == -1)
            && (forall i | 0 <= i < MAX_FREE_MEM_GB && !(flags[i] && b.sess[c][i] != -1) ::
                  b'.malloc[i] == b.malloc[i] && b'.connMap[i] == b.connMap[i] && b'.sess[c][i] == b.sess[c][i])
            && b'.outside == (b.outside || exists i :: 0 <= i < MAX_FREE_MEM_GB && flags[i] && b.sess[c][i] == -1)
            && b'.states == b.states[c := if b.mapped[c] == evictG then ConnConnected else b.states[c]]
            && b' == b.(malloc := b'.malloc, connMap := b'.connMap, sess := b.sess[c := b'.sess[c]], states := b'.states,
                        outside := b'.outside, sizeGb := b.sizeGb - evictG, mappedSize := b.mappedSize - evictG,
                        mapped := b.mapped[c := b.mapped[c] - evictG])
  {
    HeldIs(flags, b.sess[c]);
    hide Held, Mark, Minus, Count;
  }

  lemma HeldIs(flags: seq<bool>, own: seq<int>)
    requires |flags| == |own|
    ensures Held(flags, own) != flags <==> exists i :: 0 <= i < |flags| && flags[i] && own[i] == -1
  {
    var held := Held(flags, own);
    if held != flags {
      var i :| 0 <= i < |flags| && held[i] != flags[i];
      assert flags[i] && own[i] == -1;
    } else {
      assert forall i | 0 <= i < |flags| :: held[i] == flags[i];
    }
  }

  /** Expanding allocates the lowest empty slabs, until size_gb is free memory over the threshold more, or 32. */
  lemma ExpandEffect(b: Books, lastFree: int)
    requires Balanced(b) && Comes(b, Expand(lastFree))
    ensures var b' := Step(b, Expand(lastFree));
            && Sized(b') && b' == b.(malloc := b'.malloc, sizeGb := b'.sizeGb)
            && b'.sizeGb == Count(b'.malloc) == (if b.sizeGb + lastFree - 20 > 32 then 32 else b.sizeGb + lastFree - 20)
            && (forall i | 0 <= i < MAX_FREE_MEM_GB && b.malloc[i] :: b'.malloc[i])
            && forall h, i | 0 <= h < i < MAX_FREE_MEM_GB && b'.malloc[i] && !b.malloc[i] :: b'.malloc[h]
  {
    ExpandBalanced(b, lastFree);
    FirstIsLowest(Empty(b.malloc), Most(ExpandSize(b, lastFree)));
    hide Count, First, ClientOk, SlabOk;
  }

  /** The n lowest unowned slabs are no longer allocated. */
  ghost predicate FreesLowest(b: Books, b': Books, n: nat)
    requires Sized(b) && Sized(b')
  {
    && Count(b'.malloc) == Count(b.malloc) - n
    && (forall i | 0 <= i < MAX_FREE_MEM_GB && b'.malloc[i] != b.malloc[i] :: b.malloc[i] && b.connMap[i] == -1)
    && forall h, i | 0 <= h < i < MAX_FREE_MEM_GB && b'.malloc[i] != b.malloc[i] && b.malloc[h] && b.connMap[h] == -1 ::
         !b'.malloc[h]
  }

  lemma FreeUnmappedEffect(b: Books, stopG: nat)
    requires Comes(b, FreeUnmapped(stopG))
    ensures var b' := Step(b, FreeUnmapped(stopG));
            var n := if stopG <= Unowned(b) then stopG else Unowned(b);
            && Sized(b') && FreesLowest(b, b', n) && b' == b.(malloc := b'.malloc, sizeGb := b.sizeGb - n)
  {
    var free := Free(b.malloc, b.connMap);
    FirstIsLowest(free, stopG);
    CountSplit(b.malloc, Minus(b.malloc, First(free, stopG)), First(free, stopG));
    hide Count, First;
  }

  // ---------- Whole runs ----------

  /** Every moment of the run is the step of the one before. */
  ghost predicate IsRun(moments: seq<Books>, events: seq<Event>) {
    && |moments| == |events| + 1
    && forall t | 0 <= t < |events| :: Comes(moments[t], events[t]) && moments[t + 1] == Step(moments[t], events[t])
  }

  /** Over a whole run the books are balanced at every moment if and only if every event was honest. */
  lemma {:induction false} RunBalanced(moments: seq<Books>, events: seq<Event>)
    requires IsRun(moments, events) && Balanced(moments[0])
    ensures (forall t | 0 <= t < |moments| :: Balanced(moments[t])) <==>
            forall t | 0 <= t < |events| :: Honest(moments[t], events[t])
    decreases |events|
  {
    hide Balanced, Step, Honest, Comes;
    if events == [] {
    } else {
      var n := |events| - 1;
      var shorter := moments[..n + 1];
      RunBalanced(shorter, events[..n]);
      assert forall t | 0 <= t < |shorter| :: shorter[t] == moments[t];
      if forall t | 0 <= t < |shorter| :: Balanced(moments[t]) {
        assert Balanced(moments[n]);
        BalancedSized(moments[n]);
        StepBalanced(moments[n], events[n]);
        assert moments[n + 1] == Step(moments[n], events[n]);
        forall t | 0 <= t < |moments| && t != n + 1 ensures Balanced(moments[t]) {
          assert shorter[t] == moments[t];
        }
        assert forall t | 0 <= t < n :: events[..n][t] == events[t];
      } else {
        var t :| 0 <= t < n && !Honest(shorter[t], events[..n][t]);
        assert events[..n][t] == events[t];
      }
    }
  }

  lemma BalancedSized(b: Books)
    requires Balanced(b)
    ensures Sized(b)
  {}

  // ---------- How the books go wrong ----------

  lemma InitialBalanced(freeMem: int)
    ensures Balanced(InitialBooks(freeMem))
  {
    var b := InitialBooks(freeMem);
    CountBelow(MAX_FREE_MEM_GB, InitialSlabs(freeMem));
    CountNone(Owned(b.connMap));
    CountNone(Busy(b.states));
  }

  /** One client connects to a fresh monitor. */
  lemma FirstClient(freeMem: int) returns (b: Books)
    ensures Comes(InitialBooks(freeMem), Connect) && b == Step(InitialBooks(freeMem), Connect)
    ensures Balanced(InitialBooks(freeMem)) && Balanced(b) && b.states[0] == ConnConnected && b.sess[0][0] == -1
    ensures b.malloc == InitialBooks(freeMem).malloc && b.connMap == InitialBooks(freeMem).connMap
    ensures b.sizeGb == InitialSlabs(freeMem) && b.mappedSize == 0
  {
    var b0 := InitialBooks(freeMem);
    InitialBalanced(freeMem);
    assert b0.states[0] == ConnIdle;
    assert FirstIdle(b0.states) == 0;
    hide FirstIdle;
    ConnectBalanced(b0);
    b := Step(b0, Connect);
  }

  /** With 10 GB of free memory a monitor has no slab; the first client's bind is counted all the same, and the monitor
      then reports less than nothing. */
  lemma BindWithoutSlab() returns (moments: seq<Books>, events: seq<Event>)
    ensures events == [Connect, Bind(0, 1)] && IsRun(moments, events) && moments[0] == InitialBooks(10)
    ensures Balanced(moments[0]) && Balanced(moments[1]) && !Balanced(moments[2])
    ensures moments[2].sizeGb - moments[2].mappedSize == -1
  {
    var b := FirstClient(10);
    CountNone(Free(b.malloc, b.connMap));
    BindBalanced(b, 0, 1);
    events := [Connect, Bind(0, 1)];
    moments := [InitialBooks(10), b, Step(b, Bind(0, 1))];
    hide Balanced, Taken, FirstIdle, InitialBooks, Count;
  }

  /** A client that says DONE for one slab and flags none. */
  lemma DoneWithoutFlag() returns (moments: seq<Books>, events: seq<Event>)
    ensures events == [Connect, Done(0, seq(MAX_FREE_MEM_GB, _ => false), 1)] && IsRun(moments, events)
    ensures Balanced(moments[0]) && Balanced(moments[1]) && !Balanced(moments[2]) && !moments[2].outside
  {
    var b := FirstClient(10);
    var none := seq(MAX_FREE_MEM_GB, _ => false);
    CountNone(none);
    DoneBalanced(b, 0, none, 1);
    assert Held(none, b.sess[0]) == none;
    events := [Connect, Done(0, none, 1)];
    moments := [InitialBooks(10), b, Step(b, Done(0, none, 1))];
    hide Balanced, FirstIdle, InitialBooks, Count;
  }

  /** A client that flags a slab it does not hold. */
  lemma DoneForNothing() returns (moments: seq<Books>, events: seq<Event>)
    ensures |events| == 2 && events[0] == Connect && events[1].Done? && events[1].c == 0 && events[1].evictG == 1
    ensures Count(events[1].flags) == 1 && IsRun(moments, events) && moments[0] == InitialBooks(10)
    ensures Balanced(moments[0]) && Balanced(moments[1]) && !Balanced(moments[2]) && moments[2].outside
  {
    var b := FirstClient(10);
    var one := seq(MAX_FREE_MEM_GB, i requires 0 <= i => i == 0);
    CountOne(MAX_FREE_MEM_GB, 0);
    assert Held(one, b.sess[0])[0] != one[0];
    events := [Connect, Done(0, one, 1)];
    moments := [InitialBooks(10), b, Step(b, Done(0, one, 1))];
    hide FirstIdle, InitialBooks, Count;
  }

  /** n clients connect to a fresh monitor. */
  lemma {:induction false} ManyClients(freeMem: int, n: nat) returns (moments: seq<Books>, events: seq<Event>)
    requires n <= MAX_CLIENT
    ensures IsRun(moments, events) && |events| == n && moments[0] == InitialBooks(freeMem) && Balanced(moments[n])
    ensures forall c | 0 <= c < MAX_CLIENT :: moments[n].states[c] == if c < n then ConnConnected else ConnIdle
  {
    hide Balanced, FirstIdle;
    if n == 0 {
      moments, events := [InitialBooks(freeMem)], [];
      InitialBalanced(freeMem);
    } else {
      moments, events := ManyClients(freeMem, n - 1);
      var b := moments[n - 1];
      BalancedSized(b);
      assert FirstIdle(b.states) == n - 1 by {
        assert b.states[n - 1] == ConnIdle;
      }
      ConnectBalanced(b);
      moments, events := OneMore(moments, events, Connect);
    }
  }

  lemma OneMore(moments: seq<Books>, events: seq<Event>, e: Event) returns (moments': seq<Books>, events': seq<Event>)
    requires IsRun(moments, events) && Comes(moments[|events|], e)
    ensures IsRun(moments', events') && events' == events + [e] && |moments'| == |moments| + 1
    ensures moments'[..|moments|] == moments && moments'[|moments|] == Step(moments[|events|], e)
  {
    hide Comes, Step;
    events', moments' := events + [e], moments + [Step(moments[|events|], e)];
  }

  /** The 33rd client is counted, but gets no slot. */
  lemma ThirtyThirdClient(freeMem: int) returns (moments: seq<Books>, events: seq<Event>)
    ensures IsRun(moments, events) && |events| == 33 && moments[0] == InitialBooks(freeMem)
    ensures Balanced(moments[32]) && !Balanced(moments[33])
  {
    hide Balanced, FirstIdle;
    moments, events := ManyClients(freeMem, MAX_CLIENT);
    var b := moments[MAX_CLIENT];
    BalancedSized(b);
    ConnectBalanced(b);
    moments, events := OneMore(moments, events, Connect);
  }

  // ---------- The handlers ----------

  /** The flags below n. */
  function Upto(flags: seq<bool>, n: nat): (r: seq<bool>)
    ensures |r| == |flags|
  {
    seq(|flags|, i requires 0 <= i < |flags| => i < n && flags[i])
  }

  lemma MarkNone(values: seq<int>, flags: seq<bool>, to: int)
    requires |values| == |flags|
    ensures Mark(values, Upto(flags, 0), to) == values && Mark(values, Upto(flags, |flags|), to) == Mark(values, flags, to)
  {}

  lemma MarkStep(values: seq<int>, flags: seq<bool>, to: int, i: nat)
    requires i < |values| == |flags|
    ensures Mark(values, Upto(flags, i), to)[i] == values[i]
    ensures Mark(values, Upto(flags, i + 1), to) ==
              if flags[i] then Mark(values, Upto(flags, i), to)[i := to] else Mark(values, Upto(flags, i), to)
  {}

  /** Once no later flag is set, all of them have been seen. */
  lemma MarkDone(values: seq<int>, flags: seq<bool>, to: int, n: nat)
    requires |values| == |flags| && forall i | n <= i < |flags| :: !flags[i]
    ensures Mark(values, Upto(flags, n), to) == Mark(values, flags, to)
  {}

  lemma MarkOwnNone(values: seq<int>, flags: seq<bool>)
    requires |values| == |flags|
    ensures MarkOwn(values, Upto(flags, 0)) == values && MarkOwn(values, Upto(flags, |flags|)) == MarkOwn(values, flags)
  {}

  lemma MarkOwnStep(values: seq<int>, flags: seq<bool>, i: nat)
    requires i < |values| == |flags|
    ensures MarkOwn(values, Upto(flags, i + 1)) ==
              if flags[i] then MarkOwn(values, Upto(flags, i))[i := i] else MarkOwn(values, Upto(flags, i))
  {}

  lemma MarkOwnDone(values: seq<int>, flags: seq<bool>, n: nat)
    requires |values| == |flags| && forall i | n <= i < |flags| :: !flags[i]
    ensures MarkOwn(values, Upto(flags, n)) == MarkOwn(values, flags)
  {}

  lemma UptoSteps(flags: seq<bool>, i: nat)
    requires i < |flags|
    ensures Upto(flags, 0) == seq(|flags|, _ => false) && Upto(flags, |flags|) == flags
    ensures Upto(flags, i + 1) == if flags[i] then Upto(flags, i)[i := true] else Upto(flags, i)
    ensures (forall r | i < r < |flags| :: !flags[r]) ==> Upto(flags, i + 1) == flags
  {}

  lemma MinusNone(a: seq<bool>, flags: seq<bool>)
    requires |a| == |flags|
    ensures Minus(a, Upto(flags, 0)) == a && Minus(a, Upto(flags, |flags|)) == Minus(a, flags)
  {}

  lemma MinusStep(a: seq<bool>, flags: seq<bool>, i: nat)
    requires i < |a| == |flags|
    ensures Minus(a, Upto(flags, i + 1)) ==
              if flags[i] then Minus(a, Upto(flags, i))[i := false] else Minus(a, Upto(flags, i))
  {}

  /** What one slab does to the count of a loop that stops when the count reaches size. */
  lemma CountTo(flags: seq<bool>, size: int, i: nat)
    requires i < |flags| == MAX_FREE_MEM_GB && Count(flags[..i]) < Most(size)
    ensures First(flags, Most(size))[i] == flags[i]
    ensures Count(flags[..i + 1]) == Count(flags[..i]) + if flags[i] then 1 else 0
    ensures Count(flags[..i + 1]) != size ==> Count(flags[..i + 1]) < Most(size)
    ensures flags[i] && Count(flags[..i + 1]) == size ==>
              forall r | i + 1 <= r < |flags| :: !First(flags, Most(size))[r]
    ensures !flags[i] ==> Count(flags[..i + 1]) < Most(size)
  {
    hide First;
    FirstAt(flags, Most(size), i);
    CountStep(flags, i);
    CountAtMost(flags, i + 1);
    if flags[i] && Count(flags[..i + 1]) == size {
      FirstDone(flags, Most(size), i + 1);
    }
  }

  /** The loop of send_mr over the tables of one client. */
  method TakeSlabs(ghost b: Books, malloc: seq<bool>, connMap: seq<int>, own: seq<int>, c: nat, size: int)
    returns (connMap': seq<int>, own': seq<int>, rkey: seq<bool>)
    requires |malloc| == |connMap| == |own| == MAX_FREE_MEM_GB && b.malloc == malloc && b.connMap == connMap
    ensures rkey == Taken(b, size) && connMap' == Mark(connMap, rkey, c) && own' == MarkOwn(own, rkey)
  {
    ghost var free, most, taken := Free(malloc, connMap), Most(size), Taken(b, size);
    CountWhole(free);
    NothingYet(free);
    MarkNone(connMap, taken, c);
    MarkOwnNone(own, taken);
    UptoSteps(taken, 0);
    hide Count, First, Mark, MarkOwn, Upto, Most;
    connMap', own', rkey := connMap, own, seq(MAX_FREE_MEM_GB, _ => false);
    var j := 0;
    for i := 0 to MAX_FREE_MEM_GB
      invariant j == Count(free[..i]) && j < most && rkey == Upto(taken, i)
      invariant connMap' == Mark(connMap, Upto(taken, i), c) && own' == MarkOwn(own, Upto(taken, i))
    {
      CountTo(free, size, i);
      MarkStep(connMap, taken, c, i);
      MarkOwnStep(own, taken, i);
      UptoSteps(taken, i);
      if malloc[i] && connMap'[i] == -1 {
        own' := own'[i := i];
        connMap' := connMap'[i := c];
        rkey := rkey[i := true];
        j := j + 1;
        if j == size {
          MarkDone(connMap, taken, c, i + 1);
          MarkOwnDone(own, taken, i + 1);
          break;
        }
      }
    }
  }

  /** The loop of send_single_mr over the tables of one client. */
  method TakeFirst(ghost b: Books, malloc: seq<bool>, connMap: seq<int>, own: seq<int>, c: nat)
    returns (connMap': seq<int>, own': seq<int>, rkey: seq<bool>)
    requires |malloc| == |connMap| == |own| == MAX_FREE_MEM_GB && b.malloc == malloc && b.connMap == connMap
    ensures rkey == Taken(b, 1) && connMap' == Mark(connMap, rkey, c) && own' == MarkOwn(own, rkey)
  {
    hide Count, First;
    ghost var free, taken := Free(malloc, connMap), Taken(b, 1);
    NothingYet(free);
    connMap', own', rkey := connMap, own, seq(MAX_FREE_MEM_GB, _ => false);
    for i := 0 to MAX_FREE_MEM_GB
      invariant Count(free[..i]) == 0 && forall r | 0 <= r < i :: !taken[r]
      invariant connMap' == connMap && own' == own && rkey == seq(MAX_FREE_MEM_GB, _ => false)
    {
      FirstAt(free, 1, i);
      CountStep(free, i);
      if malloc[i] && connMap'[i] == -1 {
        own' := own'[i := i];
        connMap' := connMap'[i := c];
        rkey := rkey[i := true];
        FirstDone(free, 1, i + 1);
        break;
      }
    }
    assert rkey == taken;
  }

  lemma DoneIs(b: Books, b': Books, c: nat, flags: seq<bool>, evictG: int)
    requires Sized(b) && c < MAX_CLIENT && b.states[c] != ConnIdle && |flags| == MAX_FREE_MEM_GB
    requires b'.outside == (b.outside || Held(flags, b.sess[c]) != flags) && b'.connNum == b.connNum
    requires b'.malloc == Minus(b.malloc, Held(flags, b.sess[c])) && b'.connMap == Mark(b.connMap, Held(flags, b.sess[c]), -1)
    requires b'.sess == b.sess[c := Mark(b.sess[c], Held(flags, b.sess[c]), -1)]
    requires b'.sizeGb == b.sizeGb - evictG && b'.mappedSize == b.mappedSize - evictG
    requires b'.mapped == b.mapped[c := b.mapped[c] - evictG]
    requires b'.states == if b.mapped[c] == evictG then b.states[c := ConnConnected] else b.states
    ensures Comes(b, Done(c, flags, evictG)) && b' == Step(b, Done(c, flags, evictG))
  {
    hide Mark, Minus, Held;
  }

  /** The loop of recv_done over the tables of one client; a flag on a slab that it does not hold leaves the arrays. */
  method GiveBack(malloc: seq<bool>, connMap: seq<int>, own: seq<int>, flags: seq<bool>)
    returns (malloc': seq<bool>, connMap': seq<int>, own': seq<int>, outside: bool)
    requires |malloc| == |connMap| == |own| == |flags| == MAX_FREE_MEM_GB
    requires forall i | 0 <= i < MAX_FREE_MEM_GB :: own[i] == i || own[i] == -1
    ensures var held := Held(flags, own);
            malloc' == Minus(malloc, held) && connMap' == Mark(connMap, held, -1) && own' == Mark(own, held, -1)
    ensures outside <==> Held(flags, own) != flags
  {
    ghost var held := Held(flags, own);
    MarkNone(connMap, held, -1);
    MarkNone(own, held, -1);
    MinusNone(malloc, held);
    hide Held, Mark, Minus, Upto;
    malloc', connMap', own', outside := malloc, connMap, own, false;
    for i := 0 to MAX_FREE_MEM_GB
      invariant malloc' == Minus(malloc, Upto(held, i)) && connMap' == Mark(connMap, Upto(held, i), -1)
      invariant own' == Mark(own, Upto(held, i), -1)
      invariant outside <==> exists r :: 0 <= r < i && flags[r] && own[r] == -1
    {
      MarkStep(connMap, held, -1, i);
      MarkStep(own, held, -1, i);
      MinusStep(malloc, held, i);
      if flags[i] {
        var index := own'[i];
        own' := own'[i := -1];
        if index == -1 {
          outside := true;
        } else {
          connMap' := connMap'[index := -1];
          malloc' := malloc'[index := false];
        }
      }
    }
    HeldIs(flags, own);
  }

  class RdmaSession {
    var mallocMap: seq<bool>
    var connMap: seq<int>
    var sizeGb: int
    var mappedSize: int
    var connsState: seq<ConnState>
    var sessChunkMap: seq<seq<int>>
    var mappedChunkSize: seq<int>
    var connNum: int
    /** Whether some access has left its array. */
    ghost var outside: bool

    ghost function Now(): Books
      reads this
    {
      Books(mallocMap, connMap, sizeGb, mappedSize, connsState, sessChunkMap, mappedChunkSize, connNum, outside)
    }

    /** rdma_session_init. */
    constructor (freeMem: int)
      ensures Now() == InitialBooks(freeMem) && Balanced(Now())
      ensures sizeGb == if freeMem >= 47 then 32 else if freeMem > 20 then freeMem - 15
                        else if freeMem > 10 then freeMem - 10 else 0
      ensures forall i | 0 <= i < MAX_FREE_MEM_GB :: mallocMap[i] == (i < sizeGb)
    {
      var freeMemG := freeMem;
      if freeMemG > FREE_MEM_EXPAND_THRESHOLD {
        freeMemG := freeMemG - (FREE_MEM_EVICT_THRESHOLD + FREE_MEM_EXPAND_THRESHOLD) / 2;
      } else if freeMemG > FREE_MEM_EVICT_THRESHOLD {
        freeMemG := freeMemG - FREE_MEM_EVICT_THRESHOLD;
      } else {
        freeMemG := 0;
      }
      if freeMemG > MAX_FREE_MEM_GB {
        freeMemG := MAX_FREE_MEM_GB;
      }
      var malloc := seq(MAX_FREE_MEM_GB, _ => false);
      for i := 0 to freeMemG
        invariant |malloc| == MAX_FREE_MEM_GB && forall r | 0 <= r < MAX_FREE_MEM_GB :: malloc[r] == (r < i)
      {
        malloc := malloc[i := true];
      }
      assert freeMemG == InitialSlabs(freeMem);
      assert malloc == InitialBooks(freeMem).malloc;
      mallocMap, connMap := malloc, seq(MAX_FREE_MEM_GB, _ => -1);
      sizeGb, mappedSize, connNum, outside := freeMemG, 0, 0, false;
      connsState := seq(MAX_CLIENT, _ => ConnIdle);
      sessChunkMap, mappedChunkSize := seq(MAX_CLIENT, _ => seq(MAX_FREE_MEM_GB, _ => -1)), seq(MAX_CLIENT, _ => 0);
      new;
      InitialBalanced(freeMem);
    }

    /** build_connection: the first idle slot; a client that finds none is counted all the same. */
    method BuildConnection() returns (c: nat)
      requires Sized(Now())
      modifies this
      ensures Now() == Step(old(Now()), Connect) && c == FirstIdle(old(connsState))
    {
      hide FirstIdle;
      c := 0;
      while c < MAX_CLIENT
        invariant c <= MAX_CLIENT && forall d | 0 <= d < c :: connsState[d] != ConnIdle
        invariant Now() == old(Now())
      {
        if connsState[c] == ConnIdle {
          sessChunkMap := sessChunkMap[c := seq(MAX_FREE_MEM_GB, _ => -1)];
          mappedChunkSize := mappedChunkSize[c := 0];
          connsState := connsState[c := ConnConnected];
          break;
        }
        c := c + 1;
      }
      connNum := connNum + 1;
    }

    /** destroy_connection: what the client's own map lists is given back. */
    method DestroyConnection(c: nat)
      requires Indexed(Now()) && c < MAX_CLIENT && connsState[c] != ConnIdle
      modifies this
      ensures Comes(old(Now()), Disconnect(c)) && Now() == Step(old(Now()), Disconnect(c))
    {
      ghost var b := Now();
      ghost var listed := Listed(sessChunkMap[c]);
      if mappedChunkSize[c] > 0 {
        for i := 0 to MAX_FREE_MEM_GB
          invariant Now() == b.(connMap := connMap) && |connMap| == MAX_FREE_MEM_GB
          invariant forall r | 0 <= r < MAX_FREE_MEM_GB ::
            connMap[r] == if r < i && listed[r] then -1 else b.connMap[r]
        {
          var index := sessChunkMap[c][i];
          if index == -1 {
            continue;
          }
          connMap := connMap[index := -1];
        }
        assert connMap == Mark(b.connMap, listed, -1);
        mappedSize := mappedSize - mappedChunkSize[c];
      }
      connsState := connsState[c := ConnIdle];
      connNum := connNum - 1;
    }

    /** The BIND messages: send_mr takes free slabs until it has `size` of them; rkey marks what is sent. */
    method SendMr(c: nat, size: int) returns (rkey: seq<bool>)
      requires Sized(Now()) && c < MAX_CLIENT && connsState[c] != ConnIdle
      modifies this
      ensures Comes(old(Now()), Bind(c, size)) && Now() == Step(old(Now()), Bind(c, size))
      ensures rkey == Taken(old(Now()), size)
      ensures forall i | 0 <= i < MAX_FREE_MEM_GB :: rkey[i] <==> old(mallocMap[i]) && old(connMap[i]) == -1 && connMap[i] == c
    {
      TakenAreFree(Now(), size);
      hide Taken, Mark, MarkOwn;
      var own;
      connMap, own, rkey := TakeSlabs(Now(), mallocMap, connMap, sessChunkMap[c], c, size);
      sessChunkMap := sessChunkMap[c := own];
      mappedSize := mappedSize + size;
      mappedChunkSize := mappedChunkSize[c := mappedChunkSize[c] + size];
      connsState := connsState[c := ConnMapped];
    }

    /** The BIND_SINGLE messages: send_single_mr takes the first free slab, if there is one. */
    method SendSingleMr(c: nat) returns (rkey: seq<bool>)
      requires Sized(Now()) && c < MAX_CLIENT && connsState[c] != ConnIdle
      modifies this
      ensures Comes(old(Now()), Bind(c, 1)) && Now() == Step(old(Now()), Bind(c, 1))
      ensures rkey == Taken(old(Now()), 1)
      ensures forall i | 0 <= i < MAX_FREE_MEM_GB :: rkey[i] <==> old(mallocMap[i]) && old(connMap[i]) == -1 && connMap[i] == c
    {
      TakenAreFree(Now(), 1);
      hide Taken, Mark, MarkOwn;
      var own;
      connMap, own, rkey := TakeFirst(Now(), mallocMap, connMap, sessChunkMap[c], c);
      sessChunkMap := sessChunkMap[c := own];
      mappedSize := mappedSize + 1;
      mappedChunkSize := mappedChunkSize[c := mappedChunkSize[c] + 1];
      connsState := connsState[c := ConnMapped];
    }

    /** recv_done: the flagged slabs are freed. */
    method RecvDone(c: nat, flags: seq<bool>, evictG: int)
      requires Indexed(Now()) && c < MAX_CLIENT && connsState[c] != ConnIdle && |flags| == MAX_FREE_MEM_GB
      modifies this
      ensures Comes(old(Now()), Done(c, flags, evictG)) && Now() == Step(old(Now()), Done(c, flags, evictG))
    {
      hide Mark, Minus, Held, Comes, Step;
      ghost var b := Now();
      var own, left;
      mallocMap, connMap, own, left := GiveBack(mallocMap, connMap, sessChunkMap[c], flags);
      sessChunkMap := sessChunkMap[c := own];
      outside := outside || left;
      sizeGb := sizeGb - evictG;
      mappedSize := mappedSize - evictG;
      DoneCounters(c, evictG);
      DoneIs(b, Now(), c, flags, evictG);
    }

    /** The end of recv_done. */
    method DoneCounters(c: nat, evictG: int)
      requires |mappedChunkSize| == |connsState| == MAX_CLIENT && c < MAX_CLIENT
      modifies this`mappedChunkSize, this`connsState
      ensures mappedChunkSize == old(mappedChunkSize)[c := old(mappedChunkSize)[c] - evictG]
      ensures connsState == if old(mappedChunkSize)[c] == evictG then old(connsState)[c := ConnConnected] else old(connsState)
    {
      mappedChunkSize := mappedChunkSize[c := mappedChunkSize[c] - evictG];
      if mappedChunkSize[c] == 0 {
        connsState := connsState[c := ConnConnected];
      }
    }

    /** The expand step of free_mem. */
    method ExpandBy(lastFree: int)
      requires Sized(Now()) && lastFree > FREE_MEM_EXPAND_THRESHOLD
      modifies this
      ensures Comes(old(Now()), Expand(lastFree)) && Now() == Step(old(Now()), Expand(lastFree))
    {
      hide Count, First, Most;
      ghost var b := Now();
      var size := lastFree - FREE_MEM_EXPAND_THRESHOLD;
      if size + sizeGb > MAX_FREE_MEM_GB {
        size := MAX_FREE_MEM_GB - sizeGb;
      }
      ghost var empty, most, taken := Empty(mallocMap), Most(size), Expanded(b, lastFree);
      CountWhole(empty);
      NothingYet(empty);
      var i, j := 0, 0;
      while i < MAX_FREE_MEM_GB
        invariant Now() == b.(malloc := mallocMap) && i <= MAX_FREE_MEM_GB && |mallocMap| == MAX_FREE_MEM_GB
        invariant j == Count(empty[..i]) && j < most
        invariant forall r | 0 <= r < MAX_FREE_MEM_GB :: mallocMap[r] == (b.malloc[r] || (r < i && taken[r]))
      {
        CountTo(empty, size, i);
        if !mallocMap[i] {
          mallocMap := mallocMap[i := true];
          j := j + 1;
          if j == size {
            break;
          }
        }
        i := i + 1;
      }
      assert mallocMap == Union(b.malloc, taken);
      sizeGb := sizeGb + size;
    }

    /** The first step of evict_mem: slabs that nobody owns go first; `left` is what is still to be evicted. */
    method FreeUnmappedSlabs(stopG: nat) returns (left: nat)
      requires Sized(Now()) && stopG > 0
      modifies this
      ensures Comes(old(Now()), FreeUnmapped(stopG)) && Now() == Step(old(Now()), FreeUnmapped(stopG))
      ensures var n := if stopG <= Unowned(old(Now())) then stopG else Unowned(old(Now()));
              FreesLowest(old(Now()), Now(), n) && sizeGb == old(sizeGb) - n && left == stopG - n
      ensures left > 0 ==> Count(Free(mallocMap, connMap)) == 0
    {
      hide Count, First, FreesLowest;
      ghost var b := Now();
      FreeUnmappedEffect(b, stopG);
      ghost var free := Free(mallocMap, connMap);
      ghost var gone := First(free, stopG);
      CountWhole(free);
      NothingYet(free);
      CountFirst(free, stopG);
      var freedG := 0;
      for i := 0 to MAX_FREE_MEM_GB
        invariant Now() == b.(malloc := mallocMap) && |mallocMap| == MAX_FREE_MEM_GB
        invariant freedG == Count(free[..i]) && freedG < stopG
        invariant forall r | 0 <= r < MAX_FREE_MEM_GB :: mallocMap[r] == (b.malloc[r] && !(r < i && gone[r]))
      {
        FirstAt(free, stopG, i);
        CountStep(free, i);
        if mallocMap[i] && connMap[i] == -1 {
          mallocMap := mallocMap[i := false];
          freedG := freedG + 1;
          if freedG == stopG {
            FirstDone(free, stopG, i + 1);
            CountPrefix(free, i + 1);
            assert mallocMap == Minus(b.malloc, gone);
            sizeGb := sizeGb - stopG;
            return 0;
          }
        }
      }
      FirstAll(free, stopG);
      assert mallocMap == Minus(b.malloc, gone);
      CountNone(Free(mallocMap, connMap));
      sizeGb := sizeGb - freedG;
      left := stopG - freedG;
    }
  }
}
