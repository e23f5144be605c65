/** A client and the monitors of its servers, with the messages between them: what the client has mapped on a server and
    what that server's monitor has given it never drift apart, whatever other clients do. */
module Agreement {
  import opened Counting
  import opened Monitor
  import opened SlabMap
  import P = Placement

  // ---------- Messages ----------

  /** From a monitor to the client: the answer to a bind of a session chunk, or a STOP with the slabs to give back. */
  datatype Message =
    | Info(rkey: seq<bool>, chunk: nat)
    | Stop(marks: seq<bool>)

  /** The slots in use once the client has taken in a message. */
  function TakenIn(used: seq<bool>, msg: Message): (used': seq<bool>)
    ensures |used'| == |used|
  {
    seq(|used|, i requires 0 <= i < |used| =>
        match msg
        case Info(rkey, _) => used[i] || (i < |rkey| && rkey[i])
        case Stop(marks) => used[i] && !(i < |marks| && marks[i]))
  }

  /** The slots in use once the client has taken in all messages that are on their way, in their order. */
  function Delivered(used: seq<bool>, inbox: seq<Message>): (used': seq<bool>)
    ensures |used'| == |used|
    decreases inbox
  {
    if inbox == [] then used else Delivered(TakenIn(used, inbox[0]), inbox[1..])
  }

  /** What the client's handlers rely on: an answer names at most one slot, and a free one; a STOP marks slots in use. */
  ghost predicate Welcome(used: seq<bool>, msg: Message) {
    match msg
    case Info(rkey, _) =>
      && |rkey| == |used| && (forall i | 0 <= i < |rkey| && rkey[i] :: !used[i])
      && forall i, h | 0 <= i < h < |rkey| && rkey[i] :: !rkey[h]
    case Stop(marks) => |marks| == |used| && forall i | 0 <= i < |marks| && marks[i] :: used[i]
  }

  ghost predicate Deliverable(used: seq<bool>, inbox: seq<Message>)
    decreases inbox
  {
    inbox == [] || (Welcome(used, inbox[0]) && Deliverable(TakenIn(used, inbox[0]), inbox[1..]))
  }

  lemma {:induction false} OneMoreMessage(used: seq<bool>, inbox: seq<Message>, msg: Message)
    ensures Delivered(used, inbox + [msg]) == TakenIn(Delivered(used, inbox), msg)
    ensures Deliverable(used, inbox + [msg]) <==> Deliverable(used, inbox) && Welcome(Delivered(used, inbox), msg)
    decreases inbox
  {
    hide TakenIn, Welcome;
    if inbox == [] {
      assert [msg][1..] == [];
    } else {
      OneMoreMessage(TakenIn(used, inbox[0]), inbox[1..], msg);
      assert (inbox + [msg])[1..] == inbox[1..] + [msg];
    }
  }

  // ---------- One connection ----------

  function NoMarks(): (none: seq<bool>)
    ensures |none| == MAX_MR_SIZE_GB && forall i | 0 <= i < MAX_MR_SIZE_GB :: !none[i]
  {
    seq(MAX_MR_SIZE_GB, _ => false)
  }

  /** The client's slots in use are exactly the slabs that the monitor's map of that client lists. */
  ghost predicate SameSlots(own: seq<int>, sess: seq<int>) {
    && |own| == |sess| == MAX_MR_SIZE_GB
    && forall i | 0 <= i < MAX_MR_SIZE_GB :: own[i] == -1 <==> sess[i] == -1
  }

  /** Both sides agree up to the messages on their way; `stopped` are the slabs of a STOP that has not been answered. */
  ghost predicate Agree(own: seq<int>, sess: seq<int>, inbox: seq<Message>, stopped: seq<bool>) {
    && |own| == |sess| == |stopped| == MAX_MR_SIZE_GB && Deliverable(Listed(own), inbox)
    && (forall i | 0 <= i < MAX_MR_SIZE_GB :: sess[i] != -1 <==> Delivered(Listed(own), inbox)[i] || stopped[i])
    && forall i | 0 <= i < MAX_MR_SIZE_GB && stopped[i] :: !Delivered(Listed(own), inbox)[i]
  }

  /** The connection to a server: none; one with messages under way to the client; one that the client has given up but
      the monitor has not; or one that the monitor has given up but the client has not. */
  datatype Link =
    | Off
    | Live(d: nat, inbox: seq<Message>, stopped: seq<bool>)
    | Closing(d: nat)
    | Lost

  ghost predicate LinkOk(own: seq<int>, b: Books, link: Link)
    requires Sized(b)
  {
    && |own| == MAX_MR_SIZE_GB
    && match link
       case Off => forall i | 0 <= i < MAX_MR_SIZE_GB :: own[i] == -1
       case Live(d, inbox, stopped) => d < MAX_CLIENT && b.states[d] != ConnIdle && Agree(own, b.sess[d], inbox, stopped)
       case Closing(d) => d < MAX_CLIENT && b.states[d] != ConnIdle && forall i | 0 <= i < MAX_MR_SIZE_GB :: own[i] == -1
       case Lost => true
  }

  lemma QuietAgrees(own: seq<int>, b: Books, link: Link)
    requires Sized(b) && LinkOk(own, b, link) && link.Live? && link.inbox == [] && link.stopped == NoMarks()
    ensures SameSlots(own, b.sess[link.d])
  {}

  lemma OneTaken(b: Books)
    requires Sized(b)
    ensures forall i, h | 0 <= i < h < MAX_FREE_MEM_GB && Taken(b, 1)[i] :: !Taken(b, 1)[h]
  {
    var free := Monitor.Free(b.malloc, b.connMap);
    forall i, h | 0 <= i < h < MAX_FREE_MEM_GB && Taken(b, 1)[i] ensures !Taken(b, 1)[h] {
      CountStep(free, i);
      FirstDone(free, 1, i + 1);
    }
  }

  /** A slab that the monitor gives away is in nobody's map. */
  lemma TakenUnlisted(b: Books, d: nat)
    requires Sound(b) && d < MAX_CLIENT && b.states[d] != ConnIdle
    ensures forall i | 0 <= i < MAX_FREE_MEM_GB && Taken(b, 1)[i] :: b.sess[d][i] == -1
  {
    TakenAreFree(b, 1);
    hide Taken;
  }

  /** The monitor answers a bind. */
  lemma AnswerAgrees(own: seq<int>, b: Books, link: Link, chunk: nat)
    requires Sound(b) && link.Live? && LinkOk(own, b, link) && Comes(b, Bind(link.d, 1))
    ensures Sized(Step(b, Bind(link.d, 1)))
    ensures LinkOk(own, Step(b, Bind(link.d, 1)), link.(inbox := link.inbox + [Info(Taken(b, 1), chunk)]))
  {
    OneTaken(b);
    TakenUnlisted(b, link.d);
    OneMoreMessage(Listed(own), link.inbox, Info(Taken(b, 1), chunk));
    hide Taken, Delivered, Deliverable;
  }

  /** The monitor picks slabs of the client to be given back. */
  lemma StopAgrees(own: seq<int>, b: Books, link: Link, marks: seq<bool>)
    requires Sound(b) && link.Live? && LinkOk(own, b, link) && link.stopped == NoMarks()
    requires |marks| == MAX_FREE_MEM_GB && Held(marks, b.sess[link.d]) == marks
    ensures LinkOk(own, b, link.(inbox := link.inbox + [Stop(marks)], stopped := marks))
  {
    OneMoreMessage(Listed(own), link.inbox, Stop(marks));
    assert forall i | 0 <= i < MAX_FREE_MEM_GB :: Held(marks, b.sess[link.d])[i] == marks[i];
    hide Delivered, Deliverable;
  }

  /** The client takes in the next message. */
  lemma TakeAgrees(own: seq<int>, own': seq<int>, b: Books, link: Link)
    requires Sized(b) && link.Live? && LinkOk(own, b, link) && link.inbox != [] && |own'| == MAX_MR_SIZE_GB
    requires Listed(own') == TakenIn(Listed(own), link.inbox[0])
    ensures LinkOk(own', b, link.(inbox := link.inbox[1..]))
  {
    hide TakenIn, Listed;
  }

  /** The monitor takes in a DONE message, whatever number it gives. */
  lemma DoneAgrees(own: seq<int>, b: Books, link: Link, count: int)
    requires Sound(b) && link.Live? && LinkOk(own, b, link) && Comes(b, Done(link.d, link.stopped, count))
    ensures Sized(Step(b, Done(link.d, link.stopped, count)))
    ensures !b.outside ==> !Step(b, Done(link.d, link.stopped, count)).outside
    ensures LinkOk(own, Step(b, Done(link.d, link.stopped, count)), link.(stopped := NoMarks()))
  {
    var held := Held(link.stopped, b.sess[link.d]);
    assert held == link.stopped;
    hide Delivered, Deliverable, Count;
  }

  /** What the monitor does for others leaves this client's slabs alone. */
  ghost predicate Foreign(e: Event, link: Link) {
    link.Live? || link.Closing? ==>
      match e
      case Disconnect(c) => c != link.d
      case Bind(c, _) => c != link.d
      case Done(c, _, _) => c != link.d
      case _ => true
  }

  lemma ForeignAgrees(own: seq<int>, b: Books, link: Link, e: Event)
    requires Sound(b) && LinkOk(own, b, link) && Comes(b, e) && Foreign(e, link)
    ensures Sized(Step(b, e)) && LinkOk(own, Step(b, e), link)
  {
    StepIndexed(b, e);
    hide Taken, Delivered, Deliverable, Count;
  }

  // ---------- The client with all its servers ----------

  datatype Joint = Joint(view: View, books: seq<Books>, links: seq<Link>)

  /** What can happen next: connecting; a monitor answering a bind of a session chunk, or sending a STOP; the client
      taking in the first message of an inbox; a monitor taking in a DONE; either side dropping the connection; and a
      monitor dealing with another client, or with its memory. */
  datatype Move =
    | Join(c: nat)
    | Answer(c: nat, chunk: nat)
    | SendStop(c: nat, marks: seq<bool>)
    | Take(c: nat)
    | TakeDone(c: nat, count: int)
    | ClientDrops(c: nat)
    | ServerDrops(c: nat)
    | Elsewhere(c: nat, e: Event)

  /** Message p to the client from server c is an answer to a bind. */
  ghost predicate Waits(links: seq<Link>, c: int, p: int) {
    0 <= c < |links| && links[c].Live? && 0 <= p < |links[c].inbox| && links[c].inbox[p].Info?
  }

  /** Session chunks for which an answer is under way are not mapped, and no two answers are for the same one. */
  ghost predicate Awaited(cbIndexMap: seq<int>, links: seq<Link>) {
    && (forall c, p | Waits(links, c, p) ::
          links[c].inbox[p].chunk < |cbIndexMap| && cbIndexMap[links[c].inbox[p].chunk] == NO_CB_MAPPED)
    && forall c, p, c', p' | Waits(links, c, p) && Waits(links, c', p') && (c != c' || p != p') ::
         links[c].inbox[p].chunk != links[c'].inbox[p'].chunk
  }

  /** What holds at every moment. */
  ghost predicate Linked(j: Joint) {
    && Settled(j.view) && |j.books| == |j.links| == |j.view.chunkMap|
    && (forall c | 0 <= c < |j.links| :: Sound(j.books[c]) && LinkOk(j.view.chunkMap[c], j.books[c], j.links[c]))
    && Awaited(j.view.cbIndexMap, j.links)
  }

  ghost predicate Possible(j: Joint, move: Move)
    requires Linked(j)
  {
    && move.c < |j.links|
    && var b, link := j.books[move.c], j.links[move.c];
    match move
    case Join(_) => link.Off? && FirstIdle(b.states) < MAX_CLIENT
    case Answer(_, chunk) =>
      && link.Live? && chunk < |j.view.cbIndexMap| && j.view.cbIndexMap[chunk] == NO_CB_MAPPED
      && forall c, p | Waits(j.links, c, p) :: j.links[c].inbox[p].chunk != chunk
    case SendStop(_, marks) =>
      link.Live? && link.stopped == NoMarks() && |marks| == MAX_FREE_MEM_GB && Held(marks, b.sess[link.d]) == marks
    case Take(_) => link.Live? && link.inbox != []
    case TakeDone(_, _) => link.Live? && forall p | 0 <= p < |link.inbox| :: link.inbox[p].Info?
    case ClientDrops(_) => link.Live? || link.Lost?
    case ServerDrops(_) => link.Live? || link.Closing?
    case Elsewhere(_, e) => Comes(b, e) && Foreign(e, link)
  }

  /** The first slot that an answer names. */
  function FirstNamed(rkey: seq<bool>): (slot: nat)
    ensures slot <= |rkey| && (slot < |rkey| ==> rkey[slot]) && forall i | 0 <= i < slot :: !rkey[i]
  {
    if rkey == [] then 0
    else
      var slot := FirstNamed(rkey[..|rkey| - 1]);
      if slot < |rkey| - 1 || rkey[slot] then slot else |rkey|
  }

  /** The client's tables after the handler of a message has run: see SingleChunkInit and Evict. */
  ghost function Handled(v: View, c: nat, msg: Message): (v': View)
    requires Settled(v) && c < |v.chunkMap| && Welcome(Listed(v.chunkMap[c]), msg)
    requires msg.Info? ==> msg.chunk < |v.cbIndexMap|
  {
    SlotRow(v, c);
    match msg
    case Info(rkey, chunk) =>
      var slot := FirstNamed(rkey);
      if slot == MAX_MR_SIZE_GB then v else AfterMapping(v, c, slot, chunk)
    case Stop(marks) => Cut(v, c, marks)
  }

  lemma SlotRow(v: View, c: nat)
    requires Settled(v) && c < |v.chunkMap|
    ensures |v.chunkMap[c]| == MAX_MR_SIZE_GB && |v.chunkMapCbChunk| == |v.cbIndexMap|
  {}

  ghost function Next(j: Joint, move: Move): (j': Joint)
    requires Linked(j) && Possible(j, move)
  {
    var c := move.c;
    var b, link := j.books[c], j.links[c];
    match move
    case Join(_) =>
      j.(books := j.books[c := Step(b, Connect)], links := j.links[c := Live(FirstIdle(b.states), [], NoMarks())])
    case Answer(_, chunk) =>
      j.(books := j.books[c := Step(b, Bind(link.d, 1))],
         links := j.links[c := link.(inbox := link.inbox + [Info(Taken(b, 1), chunk)])])
    case SendStop(_, marks) => j.(links := j.links[c := link.(inbox := link.inbox + [Stop(marks)], stopped := marks)])
    case Take(_) =>
      NextMessage(j, c);
      j.(view := Handled(j.view, c, link.inbox[0]), links := j.links[c := link.(inbox := link.inbox[1..])])
    case TakeDone(_, count) =>
      j.(books := j.books[c := Step(b, Done(link.d, link.stopped, count))], links := j.links[c := link.(stopped := NoMarks())])
    case ClientDrops(_) =>
      j.(view := Cut(j.view, c, AllSlots()), links := j.links[c := if link.Lost? then Off else Closing(link.d)])
    case ServerDrops(_) =>
      j.(books := j.books[c := Step(b, Disconnect(link.d))], links := j.links[c := if link.Closing? then Off else Lost])
    case Elsewhere(_, e) => j.(books := j.books[c := Step(b, e)])
  }

  // ---------- What the handlers need ----------

  /** What the handler of a message relies on: SingleChunkInit finds its chunk unmapped and the named slots free, Evict
      finds the marked slots in use. */
  ghost predicate Handleable(v: View, c: nat, msg: Message)
    requires c < |v.chunkMap|
  {
    match msg
    case Info(rkey, chunk) =>
      && |rkey| == |v.chunkMap[c]| == MAX_MR_SIZE_GB && chunk < |v.cbIndexMap| && v.cbIndexMap[chunk] == NO_CB_MAPPED
      && forall i | 0 <= i < MAX_MR_SIZE_GB && rkey[i] :: v.chunkMap[c][i] == -1
    case Stop(marks) => |marks| == MAX_MR_SIZE_GB && Named(v.chunkMap, c, marks)
  }

  /** The next message is always of that kind. */
  lemma NextMessage(j: Joint, c: nat)
    requires Linked(j) && c < |j.links| && j.links[c].Live? && j.links[c].inbox != []
    ensures Welcome(Listed(j.view.chunkMap[c]), j.links[c].inbox[0])
    ensures Handleable(j.view, c, j.links[c].inbox[0])
  {
    assert j.links[c].inbox[0].Info? ==> Waits(j.links, c, 0);
    SlotRow(j.view, c);
    hide Settled, Delivered, Sound;
  }

  /** What each monitor would name in its next answer. */
  function NextAnswers(books: seq<Books>): (answers: P.Answers)
    requires forall c | 0 <= c < |books| :: |books[c].malloc| == |books[c].connMap|
    ensures |answers| == |books| && forall c | 0 <= c < |books| :: answers[c] == Taken(books[c], 1)
  {
    seq(|books|, c requires 0 <= c < |books| => Taken(books[c], 1))
  }

  /** Between messages the monitors' next answers name only slots that are free on the client's side: what the placement
      of a group relies on. */
  lemma AnswersNameFree(j: Joint)
    requires Linked(j)
    requires forall c | 0 <= c < |j.links| :: j.links[c].Live? && j.links[c].inbox == []
    ensures forall c | 0 <= c < |j.books| :: |j.books[c].malloc| == |j.books[c].connMap|
    ensures P.NamesFree(j.view.chunkMap, NextAnswers(j.books))
  {
    forall c | 0 <= c < |j.books| ensures |j.books[c].malloc| == |j.books[c].connMap| == MAX_MR_SIZE_GB {
      assert Sound(j.books[c]);
    }
    forall c, i | 0 <= c < |j.books| && 0 <= i < MAX_MR_SIZE_GB && i < |j.view.chunkMap[c]| && Taken(j.books[c], 1)[i]
      ensures j.view.chunkMap[c][i] == -1
    {
      TakenUnlisted(j.books[c], j.links[c].d);
      assert LinkOk(j.view.chunkMap[c], j.books[c], j.links[c]);
    }
    hide Taken, Settled;
  }

  // ---------- The client's side of a message ----------

  /** Only the row of server c has changed, as the message says, and unmapped chunks have stayed unmapped. */
  ghost predicate RowsAfter(v: View, v': View, c: nat, msg: Message)
    requires c < |v.chunkMap|
  {
    && Settled(v') && |v'.chunkMap| == |v.chunkMap| && |v'.cbIndexMap| == |v.cbIndexMap|
    && |v'.chunkMap[c]| == MAX_MR_SIZE_GB && Listed(v'.chunkMap[c]) == TakenIn(Listed(v.chunkMap[c]), msg)
    && (forall d | 0 <= d < |v.chunkMap| && d != c :: v'.chunkMap[d] == v.chunkMap[d])
    && forall s | 0 <= s < |v.cbIndexMap| && v.cbIndexMap[s] == NO_CB_MAPPED && !(msg.Info? && s == msg.chunk) ::
         v'.cbIndexMap[s] == NO_CB_MAPPED
  }

  lemma HandledRows(v: View, c: nat, msg: Message)
    requires Settled(v) && c < |v.chunkMap| && Welcome(Listed(v.chunkMap[c]), msg)
    requires msg.Info? ==> msg.chunk < |v.cbIndexMap| && v.cbIndexMap[msg.chunk] == NO_CB_MAPPED
    ensures RowsAfter(v, Handled(v, c, msg), c, msg)
  {
    match msg
    case Info(rkey, chunk) => InfoRows(v, c, rkey, chunk);
    case Stop(marks) => StopRows(v, c, marks);
  }

  lemma InfoRows(v: View, c: nat, rkey: seq<bool>, chunk: nat)
    requires Settled(v) && c < |v.chunkMap| && Welcome(Listed(v.chunkMap[c]), Info(rkey, chunk))
    requires chunk < |v.cbIndexMap| && v.cbIndexMap[chunk] == NO_CB_MAPPED
    ensures RowsAfter(v, Handled(v, c, Info(rkey, chunk)), c, Info(rkey, chunk))
  {
    SlotRow(v, c);
    var slot, used, v' := FirstNamed(rkey), Listed(v.chunkMap[c]), Handled(v, c, Info(rkey, chunk));
    hide Settled, FirstNamed;
    if slot < MAX_MR_SIZE_GB {
      assert used[slot] == (v.chunkMap[c][slot] != -1);
      MappedSettled(v, c, slot, chunk);
    }
    forall i | 0 <= i < MAX_MR_SIZE_GB ensures Listed(v'.chunkMap[c])[i] == TakenIn(used, Info(rkey, chunk))[i] {
      assert rkey[i] ==> i == slot;
    }
  }

  lemma MappedSettled(v: View, c: nat, slot: nat, chunk: nat)
    requires Settled(v) && c < |v.chunkMap| && slot < |v.chunkMap[c]| == MAX_MR_SIZE_GB && v.chunkMap[c][slot] == -1
    requires chunk < |v.cbIndexMap| == |v.chunkMapCbChunk| && v.cbIndexMap[chunk] == NO_CB_MAPPED
    ensures Settled(AfterMapping(v, c, slot, chunk))
  {
    MapSettled(v, c, slot, chunk);
    hide Settled;
  }

  lemma StopRows(v: View, c: nat, marks: seq<bool>)
    requires Settled(v) && c < |v.chunkMap| && Welcome(Listed(v.chunkMap[c]), Stop(marks))
    ensures RowsAfter(v, Handled(v, c, Stop(marks)), c, Stop(marks))
  {
    SlotRow(v, c);
    CutSettled(v, c, marks);
    CutRows(v, c, marks);
    hide Settled, Cut;
  }

  lemma CutRows(v: View, c: nat, gone: seq<bool>)
    requires Settled(v) && c < |v.chunkMap| && |gone| == MAX_MR_SIZE_GB
    ensures var v' := Cut(v, c, gone);
            && |v'.chunkMap| == |v.chunkMap| && |v'.cbIndexMap| == |v.cbIndexMap|
            && |v.chunkMap[c]| == |v'.chunkMap[c]| == MAX_MR_SIZE_GB
            && (forall i | 0 <= i < MAX_MR_SIZE_GB :: v'.chunkMap[c][i] == if gone[i] then -1 else v.chunkMap[c][i])
            && (forall d | 0 <= d < |v.chunkMap| && d != c :: v'.chunkMap[d] == v.chunkMap[d])
            && forall s | 0 <= s < |v.cbIndexMap| && v.cbIndexMap[s] == NO_CB_MAPPED :: v'.cbIndexMap[s] == NO_CB_MAPPED
  {}

  // ---------- Every move keeps both sides together ----------

  /** Answers under way, when those of server c move up by `up` places. */
  lemma AwaitedKept(cbIndexMap: seq<int>, cbIndexMap': seq<int>, links: seq<Link>, links': seq<Link>, c: nat, up: nat)
    requires Awaited(cbIndexMap, links) && |cbIndexMap'| == |cbIndexMap|
    requires forall d, p | Waits(links', d, p) ::
               var p0 := if d == c then p + up else p;
               Waits(links, d, p0) && links[d].inbox[p0].chunk == links'[d].inbox[p].chunk
               && (links[d].inbox[p0].chunk < |cbIndexMap| && cbIndexMap[links[d].inbox[p0].chunk] == NO_CB_MAPPED ==>
                     cbIndexMap'[links[d].inbox[p0].chunk] == NO_CB_MAPPED)
    ensures Awaited(cbIndexMap', links')
  {
    hide Waits;
  }

  lemma JoinLinked(j: Joint, c: nat)
    requires Linked(j) && Possible(j, Join(c))
    ensures Linked(Next(j, Join(c)))
  {
    var b := j.books[c];
    StepSound(b, Connect);
    AwaitedKept(j.view.cbIndexMap, j.view.cbIndexMap, j.links, Next(j, Join(c)).links, c, 0);
    hide Settled, FirstIdle, Awaited, Waits;
  }

  lemma AnswerLinked(j: Joint, c: nat, chunk: nat)
    requires Linked(j) && Possible(j, Answer(c, chunk))
    ensures Linked(Next(j, Answer(c, chunk)))
  {
    var j' := Next(j, Answer(c, chunk));
    var inbox := j.links[c].inbox;
    StepSound(j.books[c], Bind(j.links[c].d, 1));
    AnswerAgrees(j.view.chunkMap[c], j.books[c], j.links[c], chunk);
    forall d, p | Waits(j'.links, d, p)
      ensures if d == c && p == |inbox| then j'.links[d].inbox[p].chunk == chunk
              else Waits(j.links, d, p) && j'.links[d].inbox[p].chunk == j.links[d].inbox[p].chunk
    {}
    hide Settled, Step, LinkOk, Sound;
    assert Awaited(j'.view.cbIndexMap, j'.links) by {
      hide Waits;
    }
  }

  lemma SendStopLinked(j: Joint, c: nat, marks: seq<bool>)
    requires Linked(j) && Possible(j, SendStop(c, marks))
    ensures Linked(Next(j, SendStop(c, marks)))
  {
    StopAgrees(j.view.chunkMap[c], j.books[c], j.links[c], marks);
    AwaitedKept(j.view.cbIndexMap, j.view.cbIndexMap, j.links, Next(j, SendStop(c, marks)).links, c, 0);
    hide Settled, LinkOk, Sound, Awaited, Waits;
  }

  lemma TakeLinked(j: Joint, c: nat)
    requires Linked(j) && Possible(j, Take(c))
    ensures Linked(Next(j, Take(c)))
  {
    var msg, j' := j.links[c].inbox[0], Next(j, Take(c));
    NextMessage(j, c);
    HandledRows(j.view, c, msg);
    TakeAgrees(j.view.chunkMap[c], j'.view.chunkMap[c], j.books[c], j.links[c]);
    TakeAwaited(j, c);
    hide Settled, LinkOk, Sound, Awaited, Waits, Handled;
  }

  lemma TakeAwaited(j: Joint, c: nat)
    requires Linked(j) && Possible(j, Take(c))
    ensures Awaited(Next(j, Take(c)).view.cbIndexMap, Next(j, Take(c)).links)
  {
    var msg, j' := j.links[c].inbox[0], Next(j, Take(c));
    NextMessage(j, c);
    HandledRows(j.view, c, msg);
    assert msg.Info? ==> Waits(j.links, c, 0);
    forall d, p | Waits(j'.links, d, p)
      ensures var p0 := if d == c then p + 1 else p;
              Waits(j.links, d, p0) && j.links[d].inbox[p0].chunk == j'.links[d].inbox[p].chunk
              && (msg.Info? ==> j.links[d].inbox[p0].chunk != msg.chunk)
    {}
    hide Settled, LinkOk, Sound, Handled, TakenIn, Welcome, Listed;
    AwaitedKept(j.view.cbIndexMap, j'.view.cbIndexMap, j.links, j'.links, c, 1);
  }

  lemma TakeDoneLinked(j: Joint, c: nat, count: int)
    requires Linked(j) && Possible(j, TakeDone(c, count))
    ensures Linked(Next(j, TakeDone(c, count)))
  {
    var link := j.links[c];
    StepSound(j.books[c], Done(link.d, link.stopped, count));
    DoneAgrees(j.view.chunkMap[c], j.books[c], link, count);
    AwaitedKept(j.view.cbIndexMap, j.view.cbIndexMap, j.links, Next(j, TakeDone(c, count)).links, c, 0);
    hide Settled, LinkOk, Sound, Awaited, Waits, Step;
  }

  lemma ClientDropsLinked(j: Joint, c: nat)
    requires Linked(j) && Possible(j, ClientDrops(c))
    ensures Linked(Next(j, ClientDrops(c)))
  {
    var j' := Next(j, ClientDrops(c));
    CutSettled(j.view, c, AllSlots());
    CutRows(j.view, c, AllSlots());
    assert LinkOk(j.view.chunkMap[c], j.books[c], j.links[c]);
    AwaitedKept(j.view.cbIndexMap, j'.view.cbIndexMap, j.links, j'.links, c, 0);
    hide Settled, Sound, Awaited, Waits, Cut, Agree;
  }

  lemma ServerDropsLinked(j: Joint, c: nat)
    requires Linked(j) && Possible(j, ServerDrops(c))
    ensures Linked(Next(j, ServerDrops(c)))
  {
    StepSound(j.books[c], Disconnect(j.links[c].d));
    AwaitedKept(j.view.cbIndexMap, j.view.cbIndexMap, j.links, Next(j, ServerDrops(c)).links, c, 0);
    hide Settled, Awaited, Waits, Step, Agree;
  }

  lemma ElsewhereLinked(j: Joint, c: nat, e: Event)
    requires Linked(j) && Possible(j, Elsewhere(c, e))
    ensures Linked(Next(j, Elsewhere(c, e)))
  {
    StepSound(j.books[c], e);
    ForeignAgrees(j.view.chunkMap[c], j.books[c], j.links[c], e);
    hide Settled, LinkOk, Sound, Awaited, Step;
  }

  lemma MoveLinked(j: Joint, move: Move)
    requires Linked(j) && Possible(j, move)
    ensures Linked(Next(j, move))
  {
    match move
    case Join(c) => JoinLinked(j, c);
    case Answer(c, chunk) => AnswerLinked(j, c, chunk);
    case SendStop(c, marks) => SendStopLinked(j, c, marks);
    case Take(c) => TakeLinked(j, c);
    case TakeDone(c, count) => TakeDoneLinked(j, c, count);
    case ClientDrops(c) => ClientDropsLinked(j, c);
    case ServerDrops(c) => ServerDropsLinked(j, c);
    case Elsewhere(c, e) => ElsewhereLinked(j, c, e);
  }

  // ---------- Whole runs ----------

  /** A client that has mapped nothing, and monitors that it is not connected to. */
  ghost predicate Unconnected(j: Joint) {
    && Settled(j.view) && |j.books| == |j.links| == |j.view.chunkMap|
    && (forall c | 0 <= c < |j.links| :: Sound(j.books[c]) && j.links[c] == Off)
    && forall c, i | 0 <= c < |j.view.chunkMap| && 0 <= i < |j.view.chunkMap[c]| :: j.view.chunkMap[c][i] == -1
  }

  /** Each moment follows from the one before by a possible move. */
  ghost predicate IsRun(moments: seq<Joint>, moves: seq<Move>) {
    && |moments| == |moves| + 1 && Unconnected(moments[0])
    && forall t | 0 <= t < |moves| && Linked(moments[t]) ::
         Possible(moments[t], moves[t]) && moments[t + 1] == Next(moments[t], moves[t])
  }

  /** At every moment of every run both sides agree up to the messages on their way. */
  lemma {:induction false} RunLinked(moments: seq<Joint>, moves: seq<Move>, t: nat)
    requires IsRun(moments, moves) && t < |moments|
    ensures Linked(moments[t])
  {
    if t == 0 {
      NothingLinked(moments[0]);
    } else {
      RunLinked(moments, moves, t - 1);
      hide Linked, Possible, Next, Unconnected;
      assert Possible(moments[t - 1], moves[t - 1]) && moments[t] == Next(moments[t - 1], moves[t - 1]);
      MoveLinked(moments[t - 1], moves[t - 1]);
    }
  }

  lemma NothingLinked(j: Joint)
    requires Unconnected(j)
    ensures Linked(j)
  {
    forall c | 0 <= c < |j.links| ensures LinkOk(j.view.chunkMap[c], j.books[c], j.links[c]) {
      SlotRow(j.view, c);
    }
    hide Settled, Sound;
  }

  /** So whenever no message of a connection is on its way, the two sides hold the same slots; */
  lemma RunSameSlots(moments: seq<Joint>, moves: seq<Move>, t: nat, c: nat)
    requires IsRun(moments, moves) && t < |moments| && c < |moments[t].links|
    requires moments[t].links[c].Live? && moments[t].links[c].inbox == [] && moments[t].links[c].stopped == NoMarks()
    ensures c < |moments[t].books| && c < |moments[t].view.chunkMap| && Sized(moments[t].books[c])
    ensures moments[t].links[c].d < MAX_CLIENT
    ensures SameSlots(moments[t].view.chunkMap[c], moments[t].books[c].sess[moments[t].links[c].d])
  {
    RunLinked(moments, moves, t);
    hide Settled, IsRun, Awaited;
    assert LinkOk(moments[t].view.chunkMap[c], moments[t].books[c], moments[t].links[c]);
    QuietAgrees(moments[t].view.chunkMap[c], moments[t].books[c], moments[t].links[c]);
  }

  // ---------- What the exchanges achieve ----------

  /** A move concerns one server, its connection and its row of slots; what a monitor does for others is its own step. */
  lemma OthersStay(j: Joint, move: Move, d: nat)
    requires Linked(j) && Possible(j, move) && d < |j.links| && d != move.c
    ensures var j' := Next(j, move);
            && |j'.books| == |j'.links| == |j'.view.chunkMap| == |j.links|
            && j'.books[d] == j.books[d] && j'.links[d] == j.links[d] && j'.view.chunkMap[d] == j.view.chunkMap[d]
  {
    match move {
      case Take(c) =>
        NextMessage(j, c);
        HandledRows(j.view, c, j.links[c].inbox[0]);
      case ClientDrops(c) => CutRows(j.view, c, AllSlots());
      case _ =>
    }
    hide Settled, Step, Sound, LinkOk, Awaited, Handled, Cut;
  }

  lemma ElsewhereSteps(j: Joint, c: nat, e: Event)
    requires Linked(j) && Possible(j, Elsewhere(c, e))
    ensures var j' := Next(j, Elsewhere(c, e)); j'.books[c] == Step(j.books[c], e) && j'.links == j.links && j'.view == j.view
  {
    hide Step, Settled, Awaited;
  }

  /** A new connection takes the first idle client slot and starts with nothing on its way. */
  lemma JoinStarts(j: Joint, c: nat)
    requires Linked(j) && Possible(j, Join(c))
    ensures var j' := Next(j, Join(c));
            && j'.links[c].Live? && j'.links[c].inbox == [] && j'.links[c].stopped == NoMarks() && j'.view == j.view
            && j'.links[c].d < MAX_CLIENT && j.books[c].states[j'.links[c].d] == ConnIdle
            && j'.books[c].states[j'.links[c].d] == ConnConnected
            && forall e | 0 <= e < j'.links[c].d :: j.books[c].states[e] != ConnIdle
  {
    hide Settled, Awaited, FirstIdle;
  }

  /** The client takes in the only message of a connection. */
  lemma TakeOnly(j: Joint, c: nat) returns (j': Joint)
    requires Linked(j) && c < |j.links| && j.links[c].Live? && |j.links[c].inbox| == 1
    ensures Possible(j, Take(c)) && j' == Next(j, Take(c)) && Linked(j') && j'.books == j.books
    ensures Welcome(Listed(j.view.chunkMap[c]), j.links[c].inbox[0])
    ensures j.links[c].inbox[0].Info? ==> j.links[c].inbox[0].chunk < |j.view.cbIndexMap|
    ensures j'.view == Handled(j.view, c, j.links[c].inbox[0]) && j'.links[c] == j.links[c].(inbox := [])
  {
    j' := Next(j, Take(c));
    TakeLinked(j, c);
    NextMessage(j, c);
    assert j.links[c].inbox[1..] == [];
    hide Linked, Handled, Welcome;
  }

  /** A bind that is answered and taken in maps its chunk, in a slab that the monitor has entered for the client, if the
      monitor had one; otherwise the client's tables stay as they are. */
  lemma BindCompletes(j: Joint, c: nat, chunk: nat) returns (j1: Joint, j': Joint)
    requires Linked(j) && Possible(j, Answer(c, chunk)) && j.links[c].inbox == []
    ensures j1 == Next(j, Answer(c, chunk)) && Linked(j1) && Possible(j1, Take(c)) && j' == Next(j1, Take(c)) && Linked(j')
    ensures j'.links[c] == j.links[c] && j.links[c].d < MAX_CLIENT
    ensures Unowned(j.books[c]) == 0 ==> j'.view == j.view
    ensures Unowned(j.books[c]) > 0 ==> BoundThere(j'.view, j'.books[c], c, j.links[c].d, chunk)
  {
    j1 := Next(j, Answer(c, chunk));
    AnswerLinked(j, c, chunk);
    assert j1.links[c].inbox == [Info(Taken(j.books[c], 1), chunk)];
    NamesOne(j.books[c]);
    SlotRow(j.view, c);
    hide Settled, Taken, Agree, Awaited, Sound, FirstNamed, Unowned, Waits;
    j' := TakeOnly(j1, c);
  }

  /** The chunk is mapped in a slot of server c whose slab the monitor has entered for client d. */
  ghost predicate BoundThere(v: View, b: Books, c: nat, d: nat, chunk: nat)
    requires Sized(b) && d < MAX_CLIENT
  {
    && c < |v.chunkMap| && chunk < |v.cbIndexMap| == |v.chunkMapCbChunk| && v.cbIndexMap[chunk] == c
    && var slot := v.chunkMapCbChunk[chunk];
    0 <= slot < MAX_MR_SIZE_GB && slot < |v.chunkMap[c]| && v.chunkMap[c][slot] == chunk && b.sess[d][slot] == slot
  }

  /** A bind of one slab names one if and only if there is an unowned one. */
  lemma NamesOne(b: Books)
    requires Sized(b)
    ensures Unowned(b) > 0 <==> FirstNamed(Taken(b, 1)) < MAX_FREE_MEM_GB
  {
    var taken := Taken(b, 1);
    FirstIsLowest(Monitor.Free(b.malloc, b.connMap), 1);
    CountNone(taken);
    hide FirstNamed, First, Count;
    if FirstNamed(taken) < MAX_FREE_MEM_GB {
      assert taken[FirstNamed(taken)];
    }
  }

  /** A STOP that is taken in and answered takes its slabs from the client and frees them, and no others. */
  lemma EvictionCompletes(j: Joint, c: nat, marks: seq<bool>, count: int) returns (j1: Joint, j2: Joint, j': Joint)
    requires Linked(j) && Possible(j, SendStop(c, marks)) && j.links[c].inbox == []
    ensures j1 == Next(j, SendStop(c, marks)) && Linked(j1) && Possible(j1, Take(c)) && j2 == Next(j1, Take(c)) && Linked(j2)
    ensures Possible(j2, TakeDone(c, count)) && j' == Next(j2, TakeDone(c, count)) && Linked(j') && j'.links[c] == j.links[c]
    ensures Returned(j.view.chunkMap[c], j'.view.chunkMap[c], j.books[c], j'.books[c], marks)
  {
    var link, b := j.links[c], j.books[c];
    j1 := Next(j, SendStop(c, marks));
    SendStopLinked(j, c, marks);
    assert j1.links[c].inbox == [Stop(marks)];
    CutRows(j.view, c, marks);
    HeldAll(marks, b.sess[link.d]);
    hide Settled, Agree, Awaited, Step, Cut, Sound, Waits, Returned, Handled;
    j2 := TakeOnly(j1, c);
    StoppedView(j.view, c, marks);
    j' := Next(j2, TakeDone(c, count));
    TakeDoneLinked(j2, c, count);
    DoneReturns(j.view.chunkMap[c], j'.view.chunkMap[c], b, link.d, marks, count);
  }

  lemma StoppedView(v: View, c: nat, marks: seq<bool>)
    requires Settled(v) && c < |v.chunkMap| && Welcome(Listed(v.chunkMap[c]), Stop(marks))
    ensures |marks| == MAX_MR_SIZE_GB && Handled(v, c, Stop(marks)) == Cut(v, c, marks)
  {
    SlotRow(v, c);
    hide Settled, Cut;
  }

  lemma DoneReturns(own: seq<int>, own': seq<int>, b: Books, d: nat, marks: seq<bool>, count: int)
    requires Comes(b, Done(d, marks, count)) && |own| == |own'| == MAX_MR_SIZE_GB
    requires forall i | 0 <= i < MAX_MR_SIZE_GB && marks[i] :: b.sess[d][i] != -1
    requires forall i | 0 <= i < MAX_MR_SIZE_GB :: own'[i] == if marks[i] then -1 else own[i]
    ensures Returned(own, own', b, Step(b, Done(d, marks, count)), marks)
  {
    DoneEffect(b, d, marks, count);
    hide Step;
  }

  /** Exactly the marked slots have gone from the client and the marked slabs from the monitor. */
  ghost predicate Returned(own: seq<int>, own': seq<int>, b: Books, b': Books, marks: seq<bool>) {
    && |own| == |own'| == |marks| == MAX_MR_SIZE_GB && Sized(b) && Sized(b')
    && forall i | 0 <= i < MAX_MR_SIZE_GB ::
         if marks[i] then own'[i] == -1 && !b'.malloc[i] && b'.connMap[i] == -1
         else own'[i] == own[i] && b'.malloc[i] == b.malloc[i] && b'.connMap[i] == b.connMap[i]
  }

  lemma HeldAll(marks: seq<bool>, own: seq<int>)
    requires |marks| == |own| && Held(marks, own) == marks
    ensures forall i | 0 <= i < |marks| && marks[i] :: own[i] != -1
  {
    assert forall i | 0 <= i < |marks| :: Held(marks, own)[i] == marks[i];
  }

  /** The client has nothing on server c, and the monitor no client d. */
  ghost predicate Gone(j: Joint, c: nat, d: nat) {
    && c < |j.links| && c < |j.books| && c < |j.view.chunkMap| && d < |j.books[c].states|
    && j.links[c] == Off && j.books[c].states[d] == ConnIdle
    && forall i | 0 <= i < |j.view.chunkMap[c]| :: j.view.chunkMap[c][i] == -1
  }

  /** That is so in the end, whichever side drops the connection first. */
  lemma ClientDropsFirst(j: Joint, c: nat) returns (j1: Joint, j': Joint)
    requires Linked(j) && c < |j.links| && j.links[c].Live?
    ensures Possible(j, ClientDrops(c)) && j1 == Next(j, ClientDrops(c)) && Linked(j1)
    ensures Possible(j1, ServerDrops(c)) && j' == Next(j1, ServerDrops(c)) && Linked(j') && Gone(j', c, j.links[c].d)
  {
    CutRows(j.view, c, AllSlots());
    j1 := Next(j, ClientDrops(c));
    ClientDropsLinked(j, c);
    hide Settled, Agree, Awaited, Cut, Sound;
    j' := Next(j1, ServerDrops(c));
    ServerDropsLinked(j1, c);
  }

  lemma ServerDropsFirst(j: Joint, c: nat) returns (j1: Joint, j': Joint)
    requires Linked(j) && c < |j.links| && j.links[c].Live?
    ensures Possible(j, ServerDrops(c)) && j1 == Next(j, ServerDrops(c)) && Linked(j1)
    ensures Possible(j1, ClientDrops(c)) && j' == Next(j1, ClientDrops(c)) && Linked(j') && Gone(j', c, j.links[c].d)
  {
    CutRows(j.view, c, AllSlots());
    j1 := Next(j, ServerDrops(c));
    ServerDropsLinked(j, c);
    hide Settled, Agree, Awaited, Cut, Sound;
    j' := Next(j1, ClientDrops(c));
    ClientDropsLinked(j1, c);
  }

  // ---------- A slab is given once ----------

  /** Between these moments client d neither leaves nor gives slab i back. */
  ghost predicate Keeps(events: seq<Event>, from: nat, to: nat, d: nat, i: nat)
    requires to <= |events|
  {
    forall r | from <= r < to :: events[r] != Disconnect(d) && !(events[r].Done? && events[r].c == d
                                                                && i < |events[r].flags| && events[r].flags[i])
  }

  lemma {:induction false} StillListed(moments: seq<Books>, events: seq<Event>, t: nat, u: nat, d: nat, i: nat)
    requires Monitor.IsRun(moments, events) && t <= u <= |events| && Sound(moments[t]) && Keeps(events, t, u, d, i)
    requires d < MAX_CLIENT && i < MAX_FREE_MEM_GB && moments[t].states[d] != ConnIdle && moments[t].sess[d][i] != -1
    ensures Sound(moments[u]) && moments[u].states[d] != ConnIdle && moments[u].sess[d][i] != -1
    decreases u
  {
    hide Sound, Step;
    if u == t {
    } else {
      StillListed(moments, events, t, u - 1, d, i);
      assert Comes(moments[u - 1], events[u - 1]) && moments[u] == Step(moments[u - 1], events[u - 1]);
      StepSound(moments[u - 1], events[u - 1]);
      StaysListed(moments[u - 1], events[u - 1], d, i);
    }
  }

  /** A monitor names a slab in two answers only if the first client has returned it in between: over binds alone the
      answers satisfy NeverTwice. */
  lemma GivenOnce(moments: seq<Books>, events: seq<Event>, t: nat, u: nat, d: nat, i: nat)
    requires Monitor.IsRun(moments, events) && t < u < |events| && Sound(moments[t]) && Keeps(events, t, u, d, i)
    requires events[t] == Bind(d, 1) && Comes(moments[t], Bind(d, 1)) && i < MAX_FREE_MEM_GB && Taken(moments[t], 1)[i]
    ensures Sized(moments[u]) && !Taken(moments[u], 1)[i]
  {
    assert Comes(moments[t], events[t]) && moments[t + 1] == Step(moments[t], events[t]);
    StepSound(moments[t], events[t]);
    assert Keeps(events, t + 1, u, d, i);
    StillListed(moments, events, t + 1, u, d, i);
    TakenUnlisted(moments[u], d);
    hide Taken, Sound, Keeps;
  }
}
