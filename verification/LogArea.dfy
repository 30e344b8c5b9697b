/** The log area of libmultipath/log.c: a ring of variable-size messages inside one
    byte arena, linked through `next` fields that live in the arena itself.

    Addresses are offsets from `la->start`, so `start` is 0 and `end` is the arena's
    length.  One array cell stands for one byte; a multi-byte header field is kept in the
    cell of its first byte.  A call whose loads and stores would leave the arena, which C
    leaves undefined, is the outcome `Fault`. */
module LogArea {
  import opened Wrappers

  const MAX_MSG_SIZE: nat := 256
  const DEFAULT_AREA_SIZE: nat := 16384
  /** sizeof(struct logmsg): a short, padding, and a pointer. */
  const HEADER: nat := 16
  /** Offset of `next` inside struct logmsg. */
  const NEXT: nat := 8
  /** sizeof(void *) */
  const WORD: nat := 8
  /** The largest aligned message: a header, 255 characters and the final zero. */
  const MAX_ALIGNED: nat := 272

  type Text = seq<int>

  datatype Msg = Msg(prio: int, text: Text)

  predicate IsText(t: Text) {
    |t| < MAX_MSG_SIZE && forall k :: 0 <= k < |t| ==> 0 < t[k] < 256
  }

  function AlignUp(n: nat): (r: nat)
    ensures n <= r < n + WORD && r % WORD == 0
  {
    (n + WORD - 1) / WORD * WORD
  }

  /** The aligned extent that a message takes in the arena. */
  function Size(m: Msg): (r: nat)
    ensures HEADER + |m.text| + 1 <= r && r % WORD == 0
    ensures IsText(m.text) ==> r <= MAX_ALIGNED
  {
    AlignUp(HEADER + |m.text| + 1)
  }

  /** Conversion of an int to the `short int prio` field. */
  function ToShort(n: int): (r: int)
    ensures -32768 <= r < 32768 && (r - n) % 65536 == 0
  {
    (n + 32768) % 65536 - 32768
  }

  /** What vsnprintf leaves in a MAX_MSG_SIZE buffer for a formatted text. */
  function Clip(t: seq<int>): (r: seq<int>)
    ensures r <= t && |r| == if |t| < MAX_MSG_SIZE then |t| else MAX_MSG_SIZE - 1
  {
    if |t| < MAX_MSG_SIZE then t else t[..MAX_MSG_SIZE - 1]
  }

  // ---------------------------------------------------------------- layout of the queue

  /** Message `i` is a text of legal length in an aligned extent inside the arena. */
  ghost predicate Inside(end: nat, msgs: seq<Msg>, pos: seq<nat>, i: nat)
    requires i < |msgs| == |pos|
  {
    IsText(msgs[i].text) && pos[i] % WORD == 0 && pos[i] + Size(msgs[i]) <= end
  }

  /** Message `j` is younger than `i`: it lies behind `i`, or, when only `j` was written
      after the rewind at index `w`, strictly below `i`. */
  ghost predicate Ordered(msgs: seq<Msg>, pos: seq<nat>, w: nat, i: nat, j: nat)
    requires i < j < |msgs| == |pos|
  {
    if i < w <= j then pos[j] + Size(msgs[j]) < pos[i] else pos[i] + Size(msgs[i]) <= pos[j]
  }

  /** The extents of the queued messages.  Messages before index `w` ascend from the head;
      messages from `w` on were written after a rewind and ascend from offset 0. */
  ghost predicate Layout(end: nat, msgs: seq<Msg>, pos: seq<nat>, w: nat) {
    && |pos| == |msgs|
    && w <= |msgs|
    && (msgs != [] ==> 0 < w)
    && (forall i :: 0 <= i < |msgs| ==> Inside(end, msgs, pos, i))
    && (forall i, j :: 0 <= i < j < |msgs| ==> Ordered(msgs, pos, w, i, j))
    && (w < |msgs| ==> pos[w] == 0)
  }

  ghost predicate TextAt(mem: seq<int>, p: nat, t: Text) {
    && p + |t| < |mem|
    && (forall k :: 0 <= k < |t| ==> mem[p + k] == t[k])
    && mem[p + |t|] == 0
  }

  /** The bytes of message `m` stand at offset `p`. */
  ghost predicate MsgAt(mem: seq<int>, p: nat, m: Msg) {
    p + HEADER < |mem| && mem[p] == m.prio && TextAt(mem, p + HEADER, m.text)
  }

  /** Message `i` of the queue is in the arena and its `next` field names the following
      one; the last one points back at the head. */
  ghost predicate Linked(mem: seq<int>, msgs: seq<Msg>, pos: seq<nat>, i: nat)
    requires i < |msgs| == |pos|
  {
    && MsgAt(mem, pos[i], msgs[i])
    && mem[pos[i] + NEXT] == pos[if i + 1 < |msgs| then i + 1 else 0]
  }

  ghost predicate Stored(mem: seq<int>, msgs: seq<Msg>, pos: seq<nat>)
    requires |pos| == |msgs|
  {
    forall i :: 0 <= i < |msgs| ==> Linked(mem, msgs, pos, i)
  }

  /** Distinct queued messages never share a byte, on either side of the rewind. */
  lemma ExtentsDisjoint(end: nat, msgs: seq<Msg>, pos: seq<nat>, w: nat, i: nat, j: nat)
    requires Layout(end, msgs, pos, w) && i < j < |msgs|
    ensures pos[i] + Size(msgs[i]) <= pos[j] || pos[j] + Size(msgs[j]) <= pos[i]
    ensures pos[i] != pos[j]
  {
    assert Ordered(msgs, pos, w, i, j);
  }

  /** `size` bytes starting at `p`, and one more when a message follows, are unused. */
  ghost predicate FreeAt(end: nat, msgs: seq<Msg>, pos: seq<nat>, p: nat, size: nat)
    requires |pos| == |msgs|
  {
    && p + size <= end
    && forall i :: 0 <= i < |msgs| ==> pos[i] + Size(msgs[i]) <= p || p + size < pos[i]
  }

  /** A message of `size` bytes has a place: right behind the last message or at the start. */
  ghost predicate HasRoom(end: nat, msgs: seq<Msg>, pos: seq<nat>, size: nat)
    requires |pos| == |msgs|
  {
    msgs == [] ||
    FreeAt(end, msgs, pos, pos[|pos| - 1] + Size(msgs[|msgs| - 1]), size) ||
    FreeAt(end, msgs, pos, 0, size)
  }

  ghost predicate Cell(mem: seq<int>, p: nat, v: int) {
    p < |mem| && mem[p] == v
  }

  lemma MsgAtHasText(mem: seq<int>, p: nat, m: Msg)
    requires MsgAt(mem, p, m)
    ensures p + HEADER < |mem| && TextAt(mem, p + HEADER, m.text)
  {
  }

  /** A memory change that leaves the extent of a message alone leaves the message alone. */
  lemma MsgUnchanged(mem: seq<int>, mem': seq<int>, p: nat, m: Msg)
    requires MsgAt(mem, p, m) && |mem'| == |mem| && p + Size(m) <= |mem|
    requires forall k :: p <= k < p + Size(m) && k != p + NEXT ==> mem'[k] == mem[k]
    ensures MsgAt(mem', p, m)
  {
    assert mem'[p] == mem[p];
    forall k | 0 <= k < |m.text| ensures mem'[p + HEADER + k] == m.text[k] {
      assert mem[p + HEADER + k] == m.text[k];
    }
  }

  /** The offset right behind the last message. */
  ghost function Behind(msgs: seq<Msg>, pos: seq<nat>): nat
    requires |pos| == |msgs| && msgs != []
  {
    pos[|pos| - 1] + Size(msgs[|msgs| - 1])
  }

  /** The three places where log_enqueue may put a message of `size` bytes. */
  ghost predicate Placed(end: nat, msgs: seq<Msg>, pos: seq<nat>, w: nat, t: nat, size: nat)
    requires |pos| == |msgs|
  {
    && t % WORD == 0 && t + size <= end
    && (msgs != [] ==>
          if w < |msgs| then t == Behind(msgs, pos) && t + size < pos[0]
          else t == Behind(msgs, pos) || (t == 0 && size < pos[0]))
  }

  ghost function NextWrap(msgs: seq<Msg>, w: nat, t: nat): nat {
    if w == |msgs| && (msgs == [] || t != 0) then w + 1 else w
  }

  lemma PlacedIsFree(end: nat, msgs: seq<Msg>, pos: seq<nat>, w: nat, t: nat, size: nat)
    requires Layout(end, msgs, pos, w) && Placed(end, msgs, pos, w, t, size)
    ensures FreeAt(end, msgs, pos, t, size)
  {
    forall i | 0 <= i < |msgs| ensures pos[i] + Size(msgs[i]) <= t || t + size < pos[i] {
      FarEnds(end, msgs, pos, w, i);
    }
  }

  /** Where message `i` lies relative to the head and to the youngest message. */
  lemma FarEnds(end: nat, msgs: seq<Msg>, pos: seq<nat>, w: nat, i: nat)
    requires Layout(end, msgs, pos, w) && i < |msgs|
    ensures Inside(end, msgs, pos, i)
    ensures i < w ==> pos[0] <= pos[i]
    ensures w <= i ==> pos[i] + Size(msgs[i]) < pos[0]
    ensures w == |msgs| || w <= i ==> pos[i] + Size(msgs[i]) <= Behind(msgs, pos)
    ensures i < w < |msgs| ==> Behind(msgs, pos) < pos[i]
  {
    assert i > 0 ==> Ordered(msgs, pos, w, 0, i);
    assert i < |msgs| - 1 ==> Ordered(msgs, pos, w, i, |msgs| - 1);
  }

  lemma StageKeepsLayout(end: nat, msgs: seq<Msg>, pos: seq<nat>, w: nat, t: nat, m: Msg)
    requires Layout(end, msgs, pos, w) && Placed(end, msgs, pos, w, t, Size(m)) && IsText(m.text)
    ensures Layout(end, msgs + [m], pos + [t], NextWrap(msgs, w, t))
  {
    var msgs', pos', w' := msgs + [m], pos + [t], NextWrap(msgs, w, t);
    forall i | 0 <= i < |msgs'| ensures Inside(end, msgs', pos', i) {
      assert i < |msgs| ==> Inside(end, msgs, pos, i);
    }
    forall i, j | 0 <= i < j < |msgs'| ensures Ordered(msgs', pos', w', i, j) {
      FarEnds(end, msgs, pos, w, i);
      assert j < |msgs| ==> Ordered(msgs, pos, w, i, j);
    }
  }

  /** There is room exactly when log_enqueue finds a place. */
  lemma RoomIsPlace(end: nat, msgs: seq<Msg>, pos: seq<nat>, w: nat, size: nat)
    requires |pos| == |msgs| && Layout(end, msgs, pos, w) && msgs != [] && 0 < size
    ensures HasRoom(end, msgs, pos, size) <==>
            Placed(end, msgs, pos, w, Behind(msgs, pos), size) || Placed(end, msgs, pos, w, 0, size)
  {
    hide Layout;
    var b := Behind(msgs, pos);
    FarEnds(end, msgs, pos, w, 0);
    FarEnds(end, msgs, pos, w, |msgs| - 1);
    if Placed(end, msgs, pos, w, b, size) {
      PlacedIsFree(end, msgs, pos, w, b, size);
    }
    if Placed(end, msgs, pos, w, 0, size) {
      PlacedIsFree(end, msgs, pos, w, 0, size);
    }
    if FreeAt(end, msgs, pos, 0, size) {
      RewoundBlocksStart(end, msgs, pos, w, size);
    }
    if FreeAt(end, msgs, pos, b, size) {
      assert pos[0] + Size(msgs[0]) <= b || b + size < pos[0];
    }
  }

  lemma RewoundBlocksStart(end: nat, msgs: seq<Msg>, pos: seq<nat>, w: nat, size: nat)
    requires Layout(end, msgs, pos, w) && msgs != [] && 0 < size && FreeAt(end, msgs, pos, 0, size)
    ensures w == |msgs| && size < pos[0]
  {
    assert pos[0] + Size(msgs[0]) <= 0 || 0 + size < pos[0];
  }

  /** Writing a message into free bytes and linking it behind the last one extends the ring. */
  lemma StageKeepsStored(mem: seq<int>, mem': seq<int>, msgs: seq<Msg>, pos: seq<nat>, w: nat, t: nat, m: Msg)
    requires Layout(|mem|, msgs, pos, w) && Stored(mem, msgs, pos) && |mem'| == |mem|
    requires t + Size(m) <= |mem|
    requires forall i :: 0 <= i < |msgs| ==> pos[i] + Size(msgs[i]) <= t || t + Size(m) <= pos[i]
    requires MsgAt(mem', t, m)
    requires msgs != [] ==> Cell(mem', pos[|pos| - 1] + NEXT, t) && Cell(mem', t + NEXT, pos[0])
    requires msgs == [] ==> Cell(mem', t + NEXT, t)
    requires msgs != [] ==> forall k :: 0 <= k < |mem| && !(t <= k < t + Size(m)) && k != pos[|pos| - 1] + NEXT ==> mem'[k] == mem[k]
    ensures Stored(mem', msgs + [m], pos + [t])
  {
    var msgs', pos' := msgs + [m], pos + [t];
    forall i | 0 <= i < |msgs'| ensures Linked(mem', msgs', pos', i) {
      if i < |msgs| {
        assert Linked(mem, msgs, pos, i) && Inside(|mem|, msgs, pos, i);
        if i + 1 < |msgs| {
          ExtentsDisjoint(|mem|, msgs, pos, w, i, |msgs| - 1);
        }
        MsgUnchanged(mem, mem', pos[i], msgs[i]);
      }
    }
  }

  lemma QueuedMsg(mem: seq<int>, msgs: seq<Msg>, pos: seq<nat>, w: nat, i: nat)
    requires Layout(|mem|, msgs, pos, w) && Stored(mem, msgs, pos) && i < |msgs|
    ensures |pos| == |msgs| && pos[i] + Size(msgs[i]) <= |mem|
    ensures IsText(msgs[i].text) && MsgAt(mem, pos[i], msgs[i])
    ensures mem[pos[i] + NEXT] == pos[if i + 1 < |msgs| then i + 1 else 0]
  {
    assert Inside(|mem|, msgs, pos, i) && Linked(mem, msgs, pos, i);
  }

  lemma PlacedBounds(end: nat, msgs: seq<Msg>, pos: seq<nat>, w: nat, t: nat, size: nat)
    requires Layout(end, msgs, pos, w) && Placed(end, msgs, pos, w, t, size)
    ensures |pos| == |msgs| && t + size <= end
    ensures msgs != [] ==> pos[|pos| - 1] + HEADER <= end
    ensures msgs != [] ==> pos[|pos| - 1] + NEXT < t || t + size <= pos[|pos| - 1] + NEXT
  {
    if msgs != [] {
      PlacedIsFree(end, msgs, pos, w, t, size);
      assert Inside(end, msgs, pos, |msgs| - 1);
    }
  }

  lemma DropKeepsLayout(end: nat, msgs: seq<Msg>, pos: seq<nat>, w: nat)
    requires msgs != [] && Layout(end, msgs, pos, w)
    ensures Layout(end, msgs[1..], pos[1..], if w > 1 then w - 1 else |msgs| - 1)
  {
    var msgs', pos', w' := msgs[1..], pos[1..], if w > 1 then w - 1 else |msgs| - 1;
    forall i | 0 <= i < |msgs'| ensures Inside(end, msgs', pos', i) {
      assert Inside(end, msgs, pos, i + 1);
    }
    forall i, j | 0 <= i < j < |msgs'| ensures Ordered(msgs', pos', w', i, j) {
      assert Ordered(msgs, pos, w, i + 1, j + 1);
    }
  }

  lemma DropKeepsStored(mem: seq<int>, mem': seq<int>, msgs: seq<Msg>, pos: seq<nat>, w: nat)
    requires msgs != [] && Layout(|mem|, msgs, pos, w) && Stored(mem, msgs, pos) && |mem'| == |mem|
    requires forall k :: 0 <= k < |mem| && !(pos[0] <= k < pos[0] + Size(msgs[0])) && k != pos[|pos| - 1] + NEXT ==> mem'[k] == mem[k]
    requires |msgs| > 1 ==> Cell(mem', pos[|pos| - 1] + NEXT, pos[1])
    ensures Stored(mem', msgs[1..], pos[1..])
  {
    var msgs', pos' := msgs[1..], pos[1..];
    forall i | 0 <= i < |msgs'| ensures Linked(mem', msgs', pos', i) {
      DropKeepsMsg(mem, mem', msgs, pos, w, i + 1);
    }
  }

  lemma DropKeepsMsg(mem: seq<int>, mem': seq<int>, msgs: seq<Msg>, pos: seq<nat>, w: nat, i: nat)
    requires 0 < i < |msgs| && Layout(|mem|, msgs, pos, w) && Stored(mem, msgs, pos) && |mem'| == |mem|
    requires forall k :: 0 <= k < |mem| && !(pos[0] <= k < pos[0] + Size(msgs[0])) && k != pos[|pos| - 1] + NEXT ==> mem'[k] == mem[k]
    requires Cell(mem', pos[|pos| - 1] + NEXT, pos[1])
    ensures MsgAt(mem', pos[i], msgs[i])
    ensures mem'[pos[i] + NEXT] == pos[if i + 1 < |msgs| then i + 1 else 1]
  {
    hide Layout, Stored, MsgAt;
    ExtentsDisjoint(|mem|, msgs, pos, w, 0, i);
    QueuedMsg(mem, msgs, pos, w, i);
    QueuedMsg(mem, msgs, pos, w, |msgs| - 1);
    if i + 1 < |msgs| {
      ExtentsDisjoint(|mem|, msgs, pos, w, i, |msgs| - 1);
    }
    MsgUnchanged(mem, mem', pos[i], msgs[i]);
  }

  // ------------------------------------------------------------- what the two calls do

  /** The registers of the log area and the contents of its arena. */
  datatype State = State(mem: seq<int>, empty: bool, head: int, tail: int)

  /** What a call leaves behind, returns and hands out. */
  datatype Outcome = Done(next: State, rc: int, got: seq<Msg>) | Fault

  predicate InArena(mem: seq<int>, p: int, n: nat) {
    0 <= p && p + n <= |mem|
  }

  /** strlen of the string at offset `p`. */
  function Strlen(mem: seq<int>, p: int): (r: Option<nat>)
    ensures r.Some? ==> InArena(mem, p, r.value + 1) && mem[p + r.value] == 0
    decreases |mem| - p
  {
    if !(0 <= p < |mem|) then None
    else if mem[p] == 0 then Some(0)
    else match Strlen(mem, p + 1) case None => None case Some(n) => Some(n + 1)
  }

  /** Where log_enqueue puts a message, and the head it leaves. */
  datatype Place = Drop | At(head: int, tail: int)

  function FindPlace(end: nat, empty: bool, head: int, tail: int, len: nat): Place {
    var rewind := head <= tail && len > end - tail;
    if rewind && head == 0 then Drop else
      var tail' := if rewind then 0 else tail;
      var head' := if rewind && empty then 0 else head;
      if head' > tail' && len >= head' - tail' then Drop else At(head', tail')
  }

  predicate StaysInside(mem: seq<int>, t: int, buff: Text, last: int) {
    InArena(mem, t, HEADER + |buff| + 1) && InArena(mem, last, HEADER)
  }

  function WriteAt(mem: seq<int>, p: nat, t: seq<int>): (r: seq<int>)
    requires p + |t| <= |mem|
    ensures |r| == |mem|
  {
    mem[..p] + t + mem[p + |t|..]
  }

  /** The stores of log_enqueue: message header and text at `t`, then the two links. */
  function Store(mem: seq<int>, t: int, prio: int, buff: Text, last: int, first: int): (r: seq<int>)
    requires StaysInside(mem, t, buff, last)
    ensures |r| == |mem|
  {
    WriteAt(mem[t := prio], t + HEADER, buff + [0])[last + NEXT := t][t + NEXT := first]
  }

  /** The offset behind the message at the tail. */
  function Forward(s: State): Option<int> {
    if s.empty then Some(s.tail) else
      match Strlen(s.mem, s.tail + HEADER)
      case None => None
      case Some(n) => Some(s.tail + AlignUp(HEADER + n + 1))
  }

  /** log_enqueue.  `text` is the formatted message before it is cut to MAX_MSG_SIZE. */
  function PutOutcome(s: State, prio: int, text: seq<int>): Outcome {
    var buff := Clip(text);
    match Forward(s)
    case None => Fault
    case Some(tail) =>
      match FindPlace(|s.mem|, s.empty, s.head, tail, AlignUp(HEADER + |buff| + 1))
      case Drop => Done(s, 1, [])
      case At(first, t) =>
        if StaysInside(s.mem, t, buff, s.tail)
        then Done(State(Store(s.mem, t, ToShort(prio), buff, s.tail, first), false, first, t), 0, [])
        else Fault
  }

  function MsgFrom(mem: seq<int>, p: int, n: nat): Msg
    requires InArena(mem, p, HEADER + n)
  {
    Msg(mem[p], mem[p + HEADER..p + HEADER + n])
  }

  /** memset(p, 0, n) */
  function Cleared(mem: seq<int>, p: int, n: nat): (r: seq<int>)
    requires InArena(mem, p, n)
    ensures |r| == |mem|
  {
    seq(|mem|, k requires 0 <= k < |mem| => if p <= k < p + n then 0 else mem[k])
  }

  /** log_dequeue behind its memcpy: the head moves on, and the old one is cleared. */
  function Unlinked(s: State, n: nat): (t: State)
    requires InArena(s.mem, s.head, HEADER + n + 1) && InArena(s.mem, s.tail, HEADER)
    ensures |t.mem| == |s.mem| && t.tail == s.tail && (t.empty <==> s.tail == s.head)
  {
    if s.tail == s.head then
      State(Cleared(s.mem, s.head, HEADER + n + 1), true, s.head, s.tail)
    else
      var next := s.mem[s.head + NEXT];
      State(Cleared(s.mem[s.tail + NEXT := next], s.head, HEADER + n + 1), false, next, s.tail)
  }

  /** log_dequeue into a buffer of MAX_MSG_SIZE + HEADER bytes. */
  function GetOutcome(s: State): Outcome {
    if s.empty then Done(s, 1, []) else
      match Strlen(s.mem, s.head + HEADER)
      case None => Fault
      case Some(n) =>
        if s.head < 0 || n >= MAX_MSG_SIZE || !InArena(s.mem, s.tail, HEADER) then Fault
        else Done(Unlinked(s, n), 0, [MsgFrom(s.mem, s.head, n)])
  }

  function Step(s: State, op: Op): Outcome {
    match op
    case Put(prio, text) => PutOutcome(s, prio, text)
    case Get => GetOutcome(s)
  }

  /** One call into the log area. */
  datatype Op = Put(prio: int, text: seq<int>) | Get

  predicate IsOp(op: Op) {
    op.Put? ==> forall k :: 0 <= k < |op.text| ==> 0 < op.text[k] < 256
  }

  /** The message that a call hands to the queue. */
  function Staged(op: Op, rc: int): seq<Msg> {
    if op.Put? && rc == 0 then [Msg(ToShort(op.prio), Clip(op.text))] else []
  }

  /** The messages that the successful Puts of a run have handed to the queue. */
  function Accepted(ops: seq<Op>, rcs: seq<int>): (r: seq<Msg>)
    requires |rcs| == |ops|
  {
    if ops == [] then [] else
      var n := |ops| - 1;
      Accepted(ops[..n], rcs[..n]) + Staged(ops[n], rcs[n])
  }

  /** The number of successful Gets of a run. */
  function Taken(ops: seq<Op>, rcs: seq<int>): (r: nat)
    requires |rcs| == |ops|
  {
    if ops == [] then 0 else
      var n := |ops| - 1;
      Taken(ops[..n], rcs[..n]) + if ops[n].Get? && rcs[n] == 0 then 1 else 0
  }

  // --------------------------------------------------------------------- the ring

  /** The abstract queue: its messages, where they lie, and the index of the rewind. */
  datatype Queue = Queue(msgs: seq<Msg>, pos: seq<nat>, wrap: nat)

  /** The whole representation: registers and arena contents against the abstract queue. */
  ghost predicate Ring(s: State, q: Queue) {
    && Layout(|s.mem|, q.msgs, q.pos, q.wrap)
    && Stored(s.mem, q.msgs, q.pos)
    && (s.empty <==> q.msgs == [])
    && (q.msgs == [] ==> s.head == s.tail && InArena(s.mem, s.head, HEADER) && s.head % WORD == 0)
    && (q.msgs != [] ==> s.head == q.pos[0] && s.tail == q.pos[|q.pos| - 1])
  }

  /** A rewind of an empty area still stores a `next` field into the old record behind it.
      The store misses a new message of `len` bytes at the start. */
  predicate Harmless(s: State, len: nat) {
    s.empty && len > |s.mem| - s.tail ==> len <= s.tail + NEXT
  }

  /** The least arena in which every rewind is harmless. */
  const AMPLE: nat := 2 * MAX_ALIGNED - HEADER

  lemma AmpleIsHarmless(s: State, q: Queue, len: nat)
    requires Ring(s, q) && AMPLE <= |s.mem| && len <= MAX_ALIGNED
    ensures Harmless(s, len)
  {
  }

  lemma {:induction false} StrlenOfText(mem: seq<int>, p: nat, t: Text)
    requires TextAt(mem, p, t) && forall k :: 0 <= k < |t| ==> 0 < t[k] < 256
    ensures Strlen(mem, p) == Some(|t|)
    decreases |t|
  {
    if t == [] {
    } else {
      assert mem[p + 0] == t[0];
      assert TextAt(mem, p + 1, t[1..]) by {
        forall k | 0 <= k < |t[1..]| ensures mem[p + 1 + k] == t[1..][k] {
          assert mem[p + (k + 1)] == t[k + 1];
        }
      }
      StrlenOfText(mem, p + 1, t[1..]);
    }
  }

  /** strlen at a queued message finds its text. */
  lemma StrlenOfMsg(s: State, q: Queue, i: nat)
    requires Ring(s, q) && i < |q.msgs|
    ensures |q.pos| == |q.msgs| && Strlen(s.mem, q.pos[i] + HEADER) == Some(|q.msgs[i].text|)
    ensures |q.msgs[i].text| < MAX_MSG_SIZE
  {
    QueuedMsg(s.mem, q.msgs, q.pos, q.wrap, i);
    StrlenOfText(s.mem, q.pos[i] + HEADER, q.msgs[i].text);
  }

  lemma BehindLies(end: nat, msgs: seq<Msg>, pos: seq<nat>, w: nat)
    requires Layout(end, msgs, pos, w) && msgs != []
    ensures |pos| == |msgs| && w <= |msgs| && Behind(msgs, pos) % WORD == 0 && Behind(msgs, pos) <= end
    ensures if w == |msgs| then pos[0] < Behind(msgs, pos) else Behind(msgs, pos) < pos[0] <= end
  {
    assert Inside(end, msgs, pos, |msgs| - 1);
    FarEnds(end, msgs, pos, w, 0);
    FarEnds(end, msgs, pos, w, |msgs| - 1);
  }

  /** The tests of log_enqueue drop a message exactly when it has no room, and otherwise
      find it a free place. */
  lemma PlaceOnRing(s: State, q: Queue, tail: nat, len: nat)
    requires Ring(s, q) && 0 < len && len % WORD == 0 && Harmless(s, len)
    requires tail == if q.msgs == [] then s.tail else Behind(q.msgs, q.pos)
    ensures |q.pos| == |q.msgs|
    ensures FindPlace(|s.mem|, s.empty, s.head, tail, len) == Drop <==> !HasRoom(|s.mem|, q.msgs, q.pos, len)
    ensures var p := FindPlace(|s.mem|, s.empty, s.head, tail, len);
            p.At? ==> p.tail >= 0 && Placed(|s.mem|, q.msgs, q.pos, q.wrap, p.tail, len)
                      && p.head == (if q.msgs == [] then p.tail else s.head)
                      && (q.msgs == [] ==> s.tail == p.tail || p.tail + len <= s.tail + NEXT)
  {
    assert q.msgs == [] ==> HasRoom(|s.mem|, q.msgs, q.pos, len);
    hide Stored, Layout, HasRoom, Behind;
    if q.msgs != [] {
      RoomIsPlace(|s.mem|, q.msgs, q.pos, q.wrap, len);
      BehindLies(|s.mem|, q.msgs, q.pos, q.wrap);
    }
  }

  /** The stores of log_enqueue write the message and both links, and nothing else. */
  lemma StoreWrites(mem: seq<int>, t: nat, m: Msg, last: nat, first: nat)
    requires t + Size(m) <= |mem| && last + HEADER <= |mem|
    requires last == t || last + NEXT < t || t + Size(m) <= last + NEXT
    ensures StaysInside(mem, t, m.text, last)
    ensures var mem' := Store(mem, t, m.prio, m.text, last, first);
            && MsgAt(mem', t, m) && Cell(mem', t + NEXT, first) && (last != t ==> Cell(mem', last + NEXT, t))
            && forall k :: 0 <= k < |mem| && !(t <= k < t + Size(m)) && k != last + NEXT ==> mem'[k] == mem[k]
  {
    var base := WriteAt(mem[t := m.prio], t + HEADER, m.text + [0]);
    assert MsgAt(base, t, m);
    var mem' := base[last + NEXT := t][t + NEXT := first];
    MsgUnchanged(base, mem', t, m);
  }

  /** A staged message turns a ring into a longer ring. */
  lemma StageKeepsRing(s: State, q: Queue, s': State, t: nat, m: Msg)
    requires Ring(s, q) && |s'.mem| == |s.mem| && IsText(m.text)
    requires Placed(|s.mem|, q.msgs, q.pos, q.wrap, t, Size(m))
    requires MsgAt(s'.mem, t, m)
    requires q.msgs != [] ==> Cell(s'.mem, s.tail + NEXT, t) && Cell(s'.mem, t + NEXT, q.pos[0])
    requires q.msgs == [] ==> Cell(s'.mem, t + NEXT, t)
    requires q.msgs != [] ==> forall k :: 0 <= k < |s.mem| && !(t <= k < t + Size(m)) && k != s.tail + NEXT ==> s'.mem[k] == s.mem[k]
    requires !s'.empty && s'.tail == t && s'.head == if q.msgs == [] then t else q.pos[0]
    ensures Ring(s', Queue(q.msgs + [m], q.pos + [t], NextWrap(q.msgs, q.wrap, t)))
  {
    PlacedIsFree(|s.mem|, q.msgs, q.pos, q.wrap, t, Size(m));
    StageKeepsLayout(|s.mem|, q.msgs, q.pos, q.wrap, t, m);
    StageKeepsStored(s.mem, s'.mem, q.msgs, q.pos, q.wrap, t, m);
  }

  /** log_enqueue is put-behind: a message that has room, and no other, becomes the last. */
  lemma PutOnRing(s: State, q: Queue, prio: int, text: seq<int>) returns (q': Queue)
    requires Ring(s, q) && IsOp(Op.Put(prio, text)) && Harmless(s, AlignUp(HEADER + |Clip(text)| + 1))
    ensures PutOutcome(s, prio, text).Done? && PutOutcome(s, prio, text).got == []
    ensures |PutOutcome(s, prio, text).next.mem| == |s.mem| && Ring(PutOutcome(s, prio, text).next, q')
    ensures |q.pos| == |q.msgs|
    ensures PutOutcome(s, prio, text).rc == if HasRoom(|s.mem|, q.msgs, q.pos, Size(Msg(ToShort(prio), Clip(text)))) then 0 else 1
    ensures q'.msgs == q.msgs + Staged(Op.Put(prio, text), PutOutcome(s, prio, text).rc)
    ensures q.pos <= q'.pos && (PutOutcome(s, prio, text).rc == 1 ==> PutOutcome(s, prio, text).next == s)
  {
    hide Layout, Stored, MsgAt, HasRoom, Placed, Store, FindPlace, Forward, Clip, ToShort;
    var m := Msg(ToShort(prio), Clip(text));
    ForwardOnRing(s, q);
    var tail := Forward(s).value;
    PlaceOnRing(s, q, tail, Size(m));
    match FindPlace(|s.mem|, s.empty, s.head, tail, Size(m))
    case Drop => q' := q;
    case At(first, t) =>
      PlacedBounds(|s.mem|, q.msgs, q.pos, q.wrap, t, Size(m));
      StoreWrites(s.mem, t, m, s.tail, first);
      q' := Queue(q.msgs + [m], q.pos + [t], NextWrap(q.msgs, q.wrap, t));
      StageKeepsRing(s, q, PutOutcome(s, prio, text).next, t, m);
  }

  lemma ForwardOnRing(s: State, q: Queue)
    requires Ring(s, q)
    ensures |q.pos| == |q.msgs|
    ensures Forward(s) == Some(if q.msgs == [] then s.tail else Behind(q.msgs, q.pos))
    ensures Forward(s).value >= 0
  {
    if q.msgs != [] {
      StrlenOfMsg(s, q, |q.msgs| - 1);
    }
  }

  /** Clearing the first message and redirecting the last `next` shortens the ring. */
  lemma DropKeepsRing(s: State, q: Queue, s': State)
    requires Ring(s, q) && q.msgs != [] && |s'.mem| == |s.mem|
    requires forall k :: 0 <= k < |s.mem| && !(s.head <= k < s.head + Size(q.msgs[0])) && k != s.tail + NEXT ==> s'.mem[k] == s.mem[k]
    requires |q.msgs| > 1 ==> Cell(s'.mem, s.tail + NEXT, q.pos[1])
    requires s'.empty <==> |q.msgs| == 1
    requires s'.tail == s.tail && s'.head == if |q.msgs| > 1 then q.pos[1] else s.head
    ensures Ring(s', Queue(q.msgs[1..], q.pos[1..], if q.wrap > 1 then q.wrap - 1 else |q.msgs| - 1))
  {
    assert Inside(|s.mem|, q.msgs, q.pos, 0);
    DropKeepsLayout(|s.mem|, q.msgs, q.pos, q.wrap);
    DropKeepsStored(s.mem, s'.mem, q.msgs, q.pos, q.wrap);
  }

  /** log_dequeue is take-from-the-front: the oldest message, byte for byte. */
  lemma GetOnRing(s: State, q: Queue) returns (q': Queue)
    requires Ring(s, q)
    ensures GetOutcome(s).Done? && |GetOutcome(s).next.mem| == |s.mem| && Ring(GetOutcome(s).next, q')
    ensures GetOutcome(s).rc == if q.msgs == [] then 1 else 0
    ensures q.msgs == GetOutcome(s).got + q'.msgs && |GetOutcome(s).got| == 1 - GetOutcome(s).rc
    ensures q.msgs == [] ==> GetOutcome(s).next == s
    ensures |q.msgs| == 1 ==> GetOutcome(s).next.tail == q.pos[0]
  {
    hide Layout, Stored, MsgAt, Strlen, Size, MsgFrom;
    if q.msgs == [] {
      q' := q;
    } else {
      StrlenOfMsg(s, q, 0);
      QueuedMsg(s.mem, q.msgs, q.pos, q.wrap, 0);
      QueuedMsg(s.mem, q.msgs, q.pos, q.wrap, |q.msgs| - 1);
      if |q.msgs| > 1 {
        ExtentsDisjoint(|s.mem|, q.msgs, q.pos, q.wrap, 0, |q.msgs| - 1);
      }
      MsgFromIs(s.mem, s.head, q.msgs[0]);
      DropKeepsRing(s, q, GetOutcome(s).next);
      q' := Queue(q.msgs[1..], q.pos[1..], if q.wrap > 1 then q.wrap - 1 else |q.msgs| - 1);
    }
  }

  /** What strlen and memcpy see of a stored message is that message. */
  lemma MsgFromIs(mem: seq<int>, p: nat, m: Msg)
    requires MsgAt(mem, p, m)
    ensures MsgFrom(mem, p, |m.text|) == m
  {
    forall k | 0 <= k < |m.text| ensures mem[p + HEADER..p + HEADER + |m.text|][k] == m.text[k] {
      assert mem[p + HEADER + k] == m.text[k];
    }
  }

  lemma StepOnRing(s: State, q: Queue, op: Op) returns (q': Queue)
    requires Ring(s, q) && IsOp(op)
    requires op.Put? ==> Harmless(s, AlignUp(HEADER + |Clip(op.text)| + 1))
    ensures Step(s, op).Done? && |Step(s, op).next.mem| == |s.mem| && Ring(Step(s, op).next, q')
    ensures q.msgs + Staged(op, Step(s, op).rc) == Step(s, op).got + q'.msgs
    ensures |Step(s, op).got| == if op.Get? && Step(s, op).rc == 0 then 1 else 0
  {
    match op
    case Put(prio, text) => q' := PutOnRing(s, q, prio, text);
    case Get => q' := GetOnRing(s, q);
  }

  lemma HeadAndRest<T>(q: seq<T>)
    ensures (q != [] ==> [q[0]] + q[1..] == q) && q + [] == q && [] + q == q
  {
  }

  // --------------------------------------------------------------------- whole runs

  /** What a run leaves behind, what its calls returned, and all they handed out. */
  datatype Ran = Ran(last: State, rcs: seq<int>, out: seq<Msg>) | Crashed

  function RunOf(s: State, ops: seq<Op>): (r: Ran)
    ensures r.Ran? ==> |r.rcs| == |ops|
  {
    if ops == [] then Ran(s, [], []) else
      var n := |ops| - 1;
      match RunOf(s, ops[..n])
      case Crashed => Crashed
      case Ran(t, rcs, out) =>
        match Step(t, ops[n])
        case Fault => Crashed
        case Done(next, rc, got) => Ran(next, rcs + [rc], out + got)
  }

  lemma RunOfSnoc(s: State, ops: seq<Op>, op: Op)
    ensures RunOf(s, ops + [op]) ==
            match RunOf(s, ops)
            case Crashed => Crashed
            case Ran(t, rcs, out) =>
              match Step(t, op)
              case Fault => Crashed
              case Done(next, rc, got) => Ran(next, rcs + [rc], out + got)
  {
    assert (ops + [op])[..|ops|] == ops;
  }

  /** A run does not crash before its first calls do. */
  lemma {:induction false} RunPrefix(s: State, ops: seq<Op>, n: nat)
    requires n <= |ops| && RunOf(s, ops).Ran?
    ensures RunOf(s, ops[..n]).Ran?
    decreases |ops|
  {
    if n == |ops| {
      assert ops[..n] == ops;
    } else {
      RunPrefix(s, ops[..|ops| - 1], n);
      assert ops[..|ops| - 1][..n] == ops[..n];
    }
  }

  ghost predicate AreOps(ops: seq<Op>) {
    forall i :: 0 <= i < |ops| ==> IsOp(ops[i])
  }

  lemma AcceptedSnoc(ops: seq<Op>, rcs: seq<int>, op: Op, rc: int)
    requires |rcs| == |ops|
    ensures Accepted(ops + [op], rcs + [rc]) == Accepted(ops, rcs) + Staged(op, rc)
    ensures Taken(ops + [op], rcs + [rc]) == Taken(ops, rcs) + if op.Get? && rc == 0 then 1 else 0
  {
    assert (ops + [op])[..|ops|] == ops && (rcs + [rc])[..|ops|] == rcs;
  }

  /** The run `ops` took the queue `q` to `q'` first in, first out: what was queued before
      followed by what was accepted is what came out followed by what is still queued. */
  ghost predicate Fifo(s: State, q: Queue, ops: seq<Op>, q': Queue) {
    var r := RunOf(s, ops);
    && r.Ran?
    && |r.last.mem| == |s.mem| && Ring(r.last, q')
    && q.msgs + Accepted(ops, r.rcs) == r.out + q'.msgs
    && |r.out| == Taken(ops, r.rcs)
  }

  lemma Regroup<T>(a: seq<T>, b: seq<T>, c: seq<T>, d: seq<T>, e: seq<T>, f: seq<T>, g: seq<T>)
    requires a + b == c + d && d + e == f + g
    ensures a + (b + e) == (c + f) + g
  {
    assert a + (b + e) == (a + b) + e;
    assert c + d + e == c + (d + e);
    assert c + (f + g) == (c + f) + g;
  }

  /** One more call: what it hands in goes behind, what it takes comes from the front. */
  lemma FifoJoin(s: State, q: Queue, ops: seq<Op>, q1: Queue, op: Op, now: Outcome, q': Queue)
    requires Fifo(s, q, ops, q1) && now == Step(RunOf(s, ops).last, op) && now.Done?
    requires |now.next.mem| == |s.mem| && Ring(now.next, q')
    requires q1.msgs + Staged(op, now.rc) == now.got + q'.msgs
    requires |now.got| == if op.Get? && now.rc == 0 then 1 else 0
    ensures Fifo(s, q, ops + [op], q') && RunOf(s, ops + [op]).last == now.next
  {
    hide Ring, Staged, Step, RunOf;
    var was := RunOf(s, ops);
    RunOfSnoc(s, ops, op);
    AcceptedSnoc(ops, was.rcs, op, now.rc);
    Regroup(q.msgs, Accepted(ops, was.rcs), was.out, q1.msgs, Staged(op, now.rc), now.got, q'.msgs);
  }

  lemma FifoSnoc(s: State, q: Queue, ops: seq<Op>, q1: Queue, op: Op) returns (q': Queue)
    requires Fifo(s, q, ops, q1) && IsOp(op)
    requires op.Put? ==> Harmless(RunOf(s, ops).last, AlignUp(HEADER + |Clip(op.text)| + 1))
    ensures Fifo(s, q, ops + [op], q')
    ensures Step(RunOf(s, ops).last, op).Done? && RunOf(s, ops + [op]).last == Step(RunOf(s, ops).last, op).next
    ensures q1.msgs + Staged(op, Step(RunOf(s, ops).last, op).rc) == Step(RunOf(s, ops).last, op).got + q'.msgs
  {
    hide Ring, Staged, IsOp, Step, Harmless, RunOf, Accepted, Taken;
    var last := RunOf(s, ops).last;
    q' := StepOnRing(last, q1, op);
    FifoJoin(s, q, ops, q1, op, Step(last, op), q');
  }

  lemma RunOfNothing(s: State)
    ensures RunOf(s, []) == Ran(s, [], [])
  {
  }

  lemma NothingIsFifo(s: State, q: Queue)
    requires Ring(s, q)
    ensures Fifo(s, q, [], q) && RunOf(s, []) == Ran(s, [], [])
  {
    hide Ring;
    assert q.msgs + Accepted([], []) == [] + q.msgs;
  }

  /** Any run of calls on an ample arena is a first-in first-out queue. */
  lemma {:induction false} RunIsFifo(s: State, q: Queue, ops: seq<Op>) returns (q': Queue)
    requires Ring(s, q) && AMPLE <= |s.mem| && AreOps(ops)
    ensures Fifo(s, q, ops, q')
    decreases |ops|
  {
    hide Layout, Stored, Harmless, Accepted, Taken, Step;
    if ops == [] {
      NothingIsFifo(s, q);
      q' := q;
    } else {
      var n := |ops| - 1;
      var q1 := RunIsFifo(s, q, ops[..n]);
      assert IsOp(ops[n]);
      if ops[n].Put? {
        AmpleIsHarmless(RunOf(s, ops[..n]).last, q1, AlignUp(HEADER + |Clip(ops[n].text)| + 1));
      }
      q' := FifoSnoc(s, q, ops[..n], q1, ops[n]);
      assert ops[..n] + [ops[n]] == ops;
    }
  }

  /** logarea_init: a request below MAX_MSG_SIZE gets the default size. */
  function ArenaSize(request: int): (n: nat)
    ensures MAX_MSG_SIZE <= n
  {
    if request < MAX_MSG_SIZE then DEFAULT_AREA_SIZE else request
  }

  function Init(end: nat): (s: State)
    ensures |s.mem| == end
  {
    State(seq(end, _ => 0), true, 0, 0)
  }

  const NOTHING: Queue := Queue([], [], 0)

  lemma InitIsRing(end: nat)
    requires HEADER <= end
    ensures Ring(Init(end), NOTHING)
  {
  }

  /** A run on a new arena stays inside it, hands out what was accepted in the order in which
      it was accepted, one message for each successful Get, and ends empty exactly when all
      of it has been handed out. */
  predicate KeepsFifo(end: nat, ops: seq<Op>) {
    var r := RunOf(Init(end), ops);
    && r.Ran?
    && r.out <= Accepted(ops, r.rcs)
    && |r.out| == Taken(ops, r.rcs)
    && (r.last.empty <==> r.out == Accepted(ops, r.rcs))
  }

  lemma AmpleKeepsFifo(end: nat, ops: seq<Op>)
    requires AMPLE <= end && AreOps(ops)
    ensures KeepsFifo(end, ops)
  {
    hide Accepted, Taken, Init, Layout, Stored;
    InitIsRing(end);
    var q := RunIsFifo(Init(end), NOTHING, ops);
    var r := RunOf(Init(end), ops);
    assert [] + Accepted(ops, r.rcs) == Accepted(ops, r.rcs);
    assert r.out == (r.out + q.msgs)[..|r.out|];
  }

  // ------------------------------------------------------------- arenas that are too small

  function Plain(n: nat): (t: Text)
    ensures |t| == n && forall k :: 0 <= k < n ==> t[k] == 120
  {
    seq(n, _ => 120)
  }

  /** Where the second of two messages has to start so that the largest message does not fit
      behind it, and the old record's `next` field lies below that message's end. */
  function Trap(end: nat): (t: nat)
    requires MAX_MSG_SIZE <= end < AMPLE
    ensures t % WORD == 0 && 24 <= t <= MAX_MSG_SIZE && end < t + MAX_ALIGNED && t + HEADER + WORD <= end
  {
    if end < MAX_ALIGNED + 24 then 24 else (end - MAX_ALIGNED + WORD) / WORD * WORD
  }

  /** Two messages, the second empty and at the trap, are taken out again. */
  function Setting(end: nat): seq<Op>
    requires MAX_MSG_SIZE <= end < AMPLE
  {
    [Op.Put(0, Plain(Trap(end) - HEADER - 1)), Op.Put(0, []), Op.Get, Op.Get]
  }

  const LARGEST: Op := Op.Put(0, Plain(MAX_MSG_SIZE - 1))

  /** The run that a smaller arena does not survive. */
  function TrapRun(end: nat): seq<Op>
    requires MAX_MSG_SIZE <= end < AMPLE
  {
    Setting(end) + [LARGEST] + [Op.Get]
  }

  /** strlen never passes a zero. */
  lemma {:induction false} StrlenStops(mem: seq<int>, p: nat, z: nat)
    requires p <= z < |mem| && mem[z] == 0
    ensures Strlen(mem, p).Some? && Strlen(mem, p).value <= z - p
    decreases z - p
  {
    if mem[p] != 0 {
      StrlenStops(mem, p + 1, z);
    }
  }

  /** The largest message behind a queue that has run empty at a trap goes to the start. */
  lemma TrapRewinds(s: State, end: nat)
    requires MAX_MSG_SIZE <= end < AMPLE && |s.mem| == end && s.empty && s.head == s.tail == Trap(end)
    ensures var text := Plain(MAX_MSG_SIZE - 1);
            Step(s, LARGEST) ==
            if MAX_ALIGNED <= end then Done(State(Store(s.mem, 0, ToShort(0), text, Trap(end), 0), false, 0, 0), 0, [])
            else Fault
  {
    hide Trap, Store, ToShort;
    assert Clip(Plain(MAX_MSG_SIZE - 1)) == Plain(MAX_MSG_SIZE - 1);
  }

  /** In an arena below MAX_ALIGNED that message does not fit there; in any other below AMPLE
      the old record's `next` field is stored into its text, and log_dequeue hands out a
      shorter one.  What is stored is the address of the start, here the offset 0; the bytes
      of any address damage a text that has others in their place. */
  lemma TrapSprings(s: State, end: nat)
    requires MAX_MSG_SIZE <= end < AMPLE && |s.mem| == end && s.empty && s.head == s.tail == Trap(end)
    ensures Step(s, LARGEST).Done? <==> MAX_ALIGNED <= end
    ensures MAX_ALIGNED <= end ==>
              var large := Step(s, LARGEST);
              && large.rc == 0 && large.got == [] && Step(large.next, Op.Get).Done?
              && Step(large.next, Op.Get).rc == 0 && |Step(large.next, Op.Get).got| == 1
              && |Step(large.next, Op.Get).got[0].text| < MAX_MSG_SIZE - 1
  {
    TrapRewinds(s, end);
    if MAX_ALIGNED <= end {
      var text, t, s' := Plain(MAX_MSG_SIZE - 1), Trap(end), Step(s, LARGEST).next;
      assert s'.mem[t + NEXT] == 0;
      hide Trap, Store, PutOutcome, Strlen, Cleared;
      StrlenStops(s'.mem, HEADER, t + NEXT);
    }
  }

  /** The first message of the setting lies at the start, and the second behind it. */
  lemma SettingPuts(s: State, q: Queue, end: nat, text: Text)
    requires MAX_MSG_SIZE <= end < AMPLE && |s.mem| == end && Ring(s, q)
    requires if q.msgs == [] then s.tail == 0 && |text| == Trap(end) - HEADER - 1
             else text == [] && s.head == s.tail == 0 && |q.msgs| == 1 && Size(q.msgs[0]) == Trap(end)
    ensures Harmless(s, AlignUp(HEADER + |Clip(text)| + 1))
    ensures PutOutcome(s, 0, text).Done? && PutOutcome(s, 0, text).rc == 0 && PutOutcome(s, 0, text).got == []
    ensures PutOutcome(s, 0, text).next.tail == if q.msgs == [] then 0 else Trap(end)
    ensures PutOutcome(s, 0, text).next.head == 0
  {
    hide Layout, Stored, Trap, Store;
    assert Clip(text) == text;
    ForwardOnRing(s, q);
  }

  lemma GetTakesOne(s: State)
    ensures GetOutcome(s).Done? ==> GetOutcome(s).next.tail == s.tail && |GetOutcome(s).got| == if s.empty then 0 else 1
  {
  }

  lemma FilledSetting(end: nat) returns (q: Queue)
    requires MAX_MSG_SIZE <= end < AMPLE
    ensures Fifo(Init(end), NOTHING, Setting(end)[..2], q) && |q.msgs| == 2
    ensures RunOf(Init(end), Setting(end)[..2]).last.tail == Trap(end)
  {
    hide Layout, Stored, Trap, Accepted, Taken, RunOf, PutOutcome, Store, Harmless;
    var s, text := Init(end), Plain(Trap(end) - HEADER - 1);
    assert Clip(text) == text;
    InitIsRing(end);
    NothingIsFifo(s, NOTHING);
    SettingPuts(s, NOTHING, end, text);
    var q1 := FifoSnoc(s, NOTHING, [], NOTHING, Op.Put(0, text));
    var s1 := RunOf(s, [] + [Op.Put(0, text)]).last;
    assert q1.msgs == [Msg(ToShort(0), text)] by {
      assert [] + q1.msgs == q1.msgs && NOTHING.msgs + [Msg(ToShort(0), text)] == [Msg(ToShort(0), text)];
    }
    assert Size(q1.msgs[0]) == Trap(end);
    SettingPuts(s1, q1, end, []);
    q := FifoSnoc(s, NOTHING, [] + [Op.Put(0, text)], q1, Op.Put(0, []));
    assert Setting(end)[..2] == [] + [Op.Put(0, text)] + [Op.Put(0, [])];
  }

  /** The setting springs no trap itself: it runs as a queue and ends empty at the trap. */
  lemma SettingIsFifo(end: nat) returns (q: Queue)
    requires MAX_MSG_SIZE <= end < AMPLE
    ensures Fifo(Init(end), NOTHING, Setting(end), q) && q.msgs == []
    ensures RunOf(Init(end), Setting(end)).last.tail == Trap(end)
  {
    hide Layout, Stored, Trap, Accepted, Taken, RunOf, GetOutcome, Init, Harmless;
    var s := Init(end);
    var q2 := FilledSetting(end);
    var o := Setting(end)[..2];
    GetTakesOne(RunOf(s, o).last);
    var q3 := FifoSnoc(s, NOTHING, o, q2, Op.Get);
    GetTakesOne(RunOf(s, o + [Op.Get]).last);
    assert |q3.msgs| == 1;
    q := FifoSnoc(s, NOTHING, o + [Op.Get], q3, Op.Get);
    assert o + [Op.Get] + [Op.Get] == Setting(end);
  }

  /** Before the last two calls all that was accepted has been handed out. */
  lemma SettingDrains(end: nat)
    requires MAX_MSG_SIZE <= end < AMPLE
    ensures var r := RunOf(Init(end), Setting(end));
            && r.Ran? && r.out == Accepted(Setting(end), r.rcs)
            && |r.last.mem| == end && r.last.empty && r.last.head == r.last.tail == Trap(end)
  {
    hide Layout, Stored, Trap, Accepted, Taken, RunOf, Init, Setting;
    var q := SettingIsFifo(end);
    var r := RunOf(Init(end), Setting(end));
    HeadAndRest(r.out);
    HeadAndRest(Accepted(Setting(end), r.rcs));
  }

  /** What the last two calls of the run add to what came out and to what was accepted. */
  lemma TrapRunEnds(end: nat) returns (out: seq<Msg>, got: seq<Msg>)
    requires MAX_MSG_SIZE <= end < AMPLE
    ensures var r := RunOf(Init(end), TrapRun(end));
            r.Ran? ==> r.out == out + [] + got && Accepted(TrapRun(end), r.rcs) == out + [Msg(0, Plain(MAX_MSG_SIZE - 1))] + []
    ensures |got| == 1 && got != [Msg(0, Plain(MAX_MSG_SIZE - 1))]
  {
    assert Staged(LARGEST, 0) == [Msg(0, Plain(MAX_MSG_SIZE - 1))] && Staged(Op.Get, 0) == [];
    hide Trap, Accepted, Taken, RunOf, Step, Init, Setting, LARGEST, Plain, Staged;
    var s, o := Init(end), Setting(end);
    SettingDrains(end);
    var r := RunOf(s, o);
    out := r.out;
    TrapSprings(r.last, end);
    RunOfSnoc(s, o, LARGEST);
    RunOfSnoc(s, o + [LARGEST], Op.Get);
    var large := Step(r.last, LARGEST);
    if large.Done? {
      got := Step(large.next, Op.Get).got;
      AcceptedSnoc(o, r.rcs, LARGEST, 0);
      AcceptedSnoc(o + [LARGEST], r.rcs + [0], Op.Get, 0);
    } else {
      got := [Msg(0, [])];
    }
  }

  lemma TrapBreaksFifo(end: nat)
    requires MAX_MSG_SIZE <= end < AMPLE
    ensures !KeepsFifo(end, TrapRun(end))
  {
    hide Accepted, Taken, RunOf, Init, TrapRun, Plain;
    var out, got := TrapRunEnds(end);
    LastDiffers(out, [], got, Msg(0, Plain(MAX_MSG_SIZE - 1)));
    HeadAndRest(out + [Msg(0, Plain(MAX_MSG_SIZE - 1))]);
  }

  lemma LastDiffers<T>(out: seq<T>, got: seq<T>, more: seq<T>, m: T)
    requires got == [] && more != [m] && |more| == 1
    ensures !(out + got + more <= out + [m])
  {
    assert (out + got + more)[|out|] == more[0];
  }

  /** The log area is a first-in first-out queue on every run exactly when logarea_init
      was asked for less than MAX_MSG_SIZE bytes, or for at least AMPLE. */
  lemma RunsAreFifoIff(request: int)
    ensures (forall ops :: AreOps(ops) ==> KeepsFifo(ArenaSize(request), ops))
            <==> request < MAX_MSG_SIZE || AMPLE <= request
  {
    var end := ArenaSize(request);
    if end < AMPLE {
      TrapBreaksFifo(end);
      assert AreOps(TrapRun(end));
    } else {
      forall ops | AreOps(ops) ensures KeepsFifo(end, ops) {
        AmpleKeepsFifo(end, ops);
      }
    }
  }

  class Area {
    var empty: bool
    var head: int
    var tail: int
    const area: array<int>

    ghost var queue: Queue

    ghost function Snapshot(): State
      reads this, area
    {
      State(area[..], empty, head, tail)
    }

    ghost predicate Valid()
      reads this, area
    {
      Ring(Snapshot(), queue)
    }

    /** logarea_init */
    constructor (request: int)
      ensures fresh(area) && Snapshot() == Init(ArenaSize(request))
      ensures Valid() && queue == NOTHING
    {
      var n := if request < MAX_MSG_SIZE then DEFAULT_AREA_SIZE else request;
      area := new int[n](_ => 0);
      empty, head, tail := true, 0, 0;
      queue := NOTHING;
      new;
      assert area[..] == Init(n).mem;
      InitIsRing(n);
    }

    /** strlen */
    method StrlenAt(p: int) returns (len: nat)
      requires Strlen(area[..], p).Some?
      ensures len == Strlen(area[..], p).value
    {
      len := 0;
      while area[p + len] != 0
        invariant 0 <= p && p + len < area.Length
        invariant Strlen(area[..], p + len).Some?
        invariant len + Strlen(area[..], p + len).value == Strlen(area[..], p).value
        decreases area.Length - p - len
      {
        len := len + 1;
      }
    }

    /** memcpy of `t` and its final zero to offset `p`. */
    method CopyIn(p: nat, t: Text)
      requires p + |t| < area.Length
      modifies area
      ensures area[..] == WriteAt(old(area[..]), p, t + [0])
    {
      forall k | 0 <= k < |t| {
        area[p + k] := t[k];
      }
      area[p + |t|] := 0;
    }

    /** log_enqueue.  `text` is the formatted message before it is cut to MAX_MSG_SIZE. */
    method Enqueue(prio: int, text: seq<int>) returns (rc: int)
      requires IsOp(Op.Put(prio, text)) && PutOutcome(Snapshot(), prio, text).Done?
      modifies this, area
      ensures PutOutcome(old(Snapshot()), prio, text) == Done(Snapshot(), rc, [])
      ensures old(Valid()) && AMPLE <= area.Length ==>
                && Valid() && old(queue.pos) <= queue.pos
                && queue.msgs == old(queue.msgs) + Staged(Op.Put(prio, text), rc)
                && (rc == 0 <==> HasRoom(area.Length, old(queue.msgs), old(queue.pos), Size(Msg(ToShort(prio), Clip(text)))))
      ensures rc != 0 ==> unchanged(this) && unchanged(area)
    {
      hide Ring, Store, Strlen, HasRoom, Harmless, Size, Clip, ToShort, FindPlace, AlignUp;
      ghost var s, q := Snapshot(), queue;
      if Ring(s, q) && AMPLE <= |s.mem| {
        AmpleIsHarmless(s, q, AlignUp(HEADER + |Clip(text)| + 1));
        q := PutOnRing(s, q, prio, text);
      }
      var lastmsg := tail;
      if !empty {
        var fwd := StrlenAt(tail + HEADER);
        tail := tail + AlignUp(HEADER + fwd + 1);
      }
      var buff := Clip(text);
      var len := AlignUp(HEADER + |buff| + 1);
      var fits := MakeRoom(len, lastmsg);
      if !fits {
        return 1;
      }
      empty := false;
      Write(tail, ToShort(prio), buff, lastmsg, head);
      rc := 0;
      queue := q;
    }

    /** The middle of log_enqueue: rewind or drop. */
    method MakeRoom(len: nat, lastmsg: int) returns (fits: bool)
      requires empty ==> tail == lastmsg
      modifies this`tail, this`head
      ensures match FindPlace(area.Length, empty, old(head), old(tail), len)
              case Drop => !fits && tail == lastmsg && head == old(head)
              case At(h, t) => fits && head == h && tail == t
    {
      // not enough space on tail: rewind
      if head <= tail && len > area.Length - tail {
        if head == 0 {
          tail := lastmsg;
          return false;
        }
        tail := 0;
        if empty {
          head := 0;
        }
      }
      // not enough space on head: drop
      if head > tail && len >= head - tail {
        if !empty {
          tail := lastmsg;
        }
        return false;
      }
      fits := true;
    }

    /** The stores of log_enqueue: message header and text at `t`, then the two links. */
    method Write(t: int, prio: int, buff: Text, lastmsg: int, first: int)
      requires StaysInside(area[..], t, buff, lastmsg)
      modifies area
      ensures area[..] == Store(old(area[..]), t, prio, buff, lastmsg, first)
    {
      area[t] := prio;
      CopyIn(t + HEADER, buff);
      area[lastmsg + NEXT] := t;
      area[t + NEXT] := first;
    }

    /** log_dequeue: `m` is what it copies to the caller's buffer. */
    method Dequeue() returns (rc: int, m: Msg)
      requires GetOutcome(Snapshot()).Done?
      modifies this, area
      ensures GetOutcome(old(Snapshot())) == Done(Snapshot(), rc, if rc == 0 then [m] else [])
      ensures old(Valid()) ==>
                && Valid()
                && rc == (if old(queue.msgs) == [] then 1 else 0)
                && (rc == 0 ==> m == old(queue.msgs)[0] && queue.msgs == old(queue.msgs)[1..])
                && (rc != 0 ==> queue.msgs == [] && unchanged(area))
    {
      hide Ring, Strlen, Unlinked, MsgFrom;
      ghost var s, q := Snapshot(), queue;
      if Ring(s, q) {
        q := GetOnRing(s, q);
      }
      m := Msg(0, []);
      var src, lst := head, tail;
      if empty {
        return 1, m;
      }
      var n := StrlenAt(src + HEADER);
      m := CopyOut(src, n);
      Unlink(src, lst, n);
      rc := 0;
      queue := q;
    }

    /** memcpy of the message at `p`, whose text has `n` characters. */
    method CopyOut(p: int, n: nat) returns (m: Msg)
      requires InArena(area[..], p, HEADER + n)
      ensures m == MsgFrom(area[..], p, n)
    {
      m := Msg(area[p], area[p + HEADER..p + HEADER + n]);
    }

    /** The end of log_dequeue: move the head on, and clear the message taken. */
    method Unlink(src: int, lst: int, n: nat)
      requires !empty && src == head && lst == tail
      requires InArena(area[..], src, HEADER + n + 1) && InArena(area[..], lst, HEADER)
      modifies this`empty, this`head, area
      ensures Snapshot() == Unlinked(old(Snapshot()), n)
    {
      ghost var mem := area[..];
      if tail == head {
        empty := true;
      } else {
        head := area[src + NEXT];
        area[lst + NEXT] := head;
        mem := mem[lst + NEXT := mem[src + NEXT]];
      }
      assert area[..] == mem;
      Clear(src, HEADER + n + 1);
    }

    /** memset(p, 0, len) */
    method Clear(p: nat, len: nat)
      requires p + len <= area.Length
      modifies area
      ensures area[..] == Cleared(old(area[..]), p, len)
    {
      forall k | p <= k < p + len {
        area[k] := 0;
      }
    }

    method Call(op: Op) returns (rc: int, got: seq<Msg>)
      requires IsOp(op) && Step(Snapshot(), op).Done?
      modifies this, area
      ensures Step(old(Snapshot()), op) == Done(Snapshot(), rc, got)
      ensures old(Valid()) && AMPLE <= area.Length ==>
                && Valid()
                && old(queue.msgs) + Staged(op, rc) == got + queue.msgs
                && (old(queue.msgs) == [] ==> (rc == 0 <==> op.Put?))
      ensures |got| == if op.Get? && rc == 0 then 1 else 0
    {
      hide Ring, PutOutcome, FreeAt, Size;
      HeadAndRest(queue.msgs);
      got := [];
      match op {
        case Put(prio, text) =>
          rc := Enqueue(prio, text);
        case Get =>
          var m;
          rc, m := Dequeue();
          if rc == 0 {
            got := [m];
          }
      }
    }

    /** A run of calls: on an ample area any run, on another one a run that stays inside it. */
    method Run(ops: seq<Op>) returns (rcs: seq<int>, out: seq<Msg>)
      requires AreOps(ops) && (RunOf(Snapshot(), ops).Ran? || (Valid() && AMPLE <= area.Length))
      modifies this, area
      ensures RunOf(old(Snapshot()), ops) == Ran(Snapshot(), rcs, out)
      ensures old(Valid()) && AMPLE <= area.Length ==>
                && Valid() && |rcs| == |ops|
                && old(queue.msgs) + Accepted(ops, rcs) == out + queue.msgs
                && |out| == Taken(ops, rcs)
    {
      hide Ring, Staged, Accepted, Taken, Step, IsOp, RunOf;
      ghost var s, q := Snapshot(), queue;
      ghost var ample := Ring(s, q) && AMPLE <= |s.mem|;
      if ample {
        var _ := RunIsFifo(s, q, ops);
      }
      RunOfNothing(s);
      if ample {
        NothingIsFifo(s, q);
      }
      rcs, out := [], [];
      assert ops[..0] == [];
      for i := 0 to |ops|
        invariant RunOf(s, ops).Ran? && RunOf(s, ops[..i]) == Ran(Snapshot(), rcs, out)
        invariant ample ==> Fifo(s, q, ops[..i], queue)
      {
        RunPrefix(s, ops, i + 1);
        assert ops[..i + 1] == ops[..i] + [ops[i]];
        RunOfSnoc(s, ops[..i], ops[i]);
        ghost var q1 := queue;
        var rc, got := Call(ops[i]);
        if ample {
          FifoJoin(s, q, ops[..i], q1, ops[i], Done(Snapshot(), rc, got), queue);
        }
        rcs, out := rcs + [rc], out + got;
      }
      assert ops[..|ops|] == ops;
    }
  }
}
