/**
 What a buffer is: the bytes not read yet, the room in front of them and the size of the
 storage; and what each of its operations does to these three. `Queue` is what a user is
 promised; the rest of the module shows that every run of the buffer keeps that promise.
 */
module ByteStore {

  const CHEAP_PREPEND: nat := 8
  const INITIAL_SIZE: nat := 1024
  const EXTRA_BUFFER: nat := 65536

  /** `reader` bytes in front, then the readable bytes, then what is left of `size`. */
  datatype Store = Store(size: nat, reader: nat, bytes: string) {
    predicate Valid() { reader + |bytes| <= size && CHEAP_PREPEND <= size }

    function Writable(): int { size - reader - |bytes| }
  }

  datatype Op =
    | Append(data: string)
    | Prepend(data: string)
    | HasWritten(data: string)  // bytes put where beginWrite() points, then declared
    | Unwrite(len: nat)
    | Retrieve(len: nat)
    | EnsureWritable(len: nat)
    | Shrink(reserve: nat)
    | ReadFd(data: string)      // what readv delivered

  function New(initialSize: nat): Store {
    Store(CHEAP_PREPEND + initialSize, CHEAP_PREPEND, "")
  }

  /** What the assertions of the operations, the two areas readv is given and the int cast demand. */
  predicate Enabled(s: Store, op: Op) {
    match op
    case Prepend(data) => |data| <= s.reader
    case HasWritten(data) => |data| <= s.Writable()
    case Unwrite(len) => len <= |s.bytes|
    case Retrieve(len) => len <= |s.bytes|
    case Shrink(reserve) => |s.bytes| < 0x8000_0000
    case ReadFd(data) => |data| <= s.Writable() + if s.Writable() < EXTRA_BUFFER then EXTRA_BUFFER else 0
    case _ => true
  }

  function AfterEnsure(s: Store, len: nat): Store
    requires s.Valid()
  {
    if s.Writable() >= len then s
    else if s.Writable() + s.reader < len + CHEAP_PREPEND then s.(size := s.reader + |s.bytes| + len)
    else s.(reader := CHEAP_PREPEND)
  }

  function AfterAppend(s: Store, data: string): Store
    requires s.Valid()
  {
    var s' := AfterEnsure(s, |data|);
    s'.(bytes := s.bytes + data)
  }

  function AfterRetrieve(s: Store, len: nat): Store
    requires s.Valid() && len <= |s.bytes|
  {
    if len < |s.bytes| then s.(reader := s.reader + len, bytes := s.bytes[len..])
    else s.(reader := CHEAP_PREPEND, bytes := "")
  }

  function After(s: Store, op: Op): (s': Store)
    requires s.Valid() && Enabled(s, op)
    ensures s'.Valid()
  {
    match op
    case Append(data) => AfterAppend(s, data)
    case Prepend(data) => s.(reader := s.reader - |data|, bytes := data + s.bytes)
    case HasWritten(data) => s.(bytes := s.bytes + data)
    case Unwrite(len) => s.(bytes := s.bytes[..|s.bytes| - len])
    case Retrieve(len) => AfterRetrieve(s, len)
    case EnsureWritable(len) => AfterEnsure(s, len)
    case Shrink(reserve) =>
      Store(CHEAP_PREPEND + if |s.bytes| + reserve <= INITIAL_SIZE then INITIAL_SIZE else |s.bytes| + reserve,
            CHEAP_PREPEND, s.bytes)
    case ReadFd(data) =>
      if |data| <= s.Writable() then s.(bytes := s.bytes + data)
      else AfterAppend(s.(bytes := s.bytes + data[..s.Writable()]), data[s.Writable()..])
  }

  /** The promise: what an operation does to the readable bytes, whatever the storage looks like. */
  function Queue(bytes: string, op: Op): string {
    match op
    case Append(data) => bytes + data
    case Prepend(data) => data + bytes
    case HasWritten(data) => bytes + data
    case Unwrite(len) => if len <= |bytes| then bytes[..|bytes| - len] else ""
    case Retrieve(len) => if len <= |bytes| then bytes[len..] else ""
    case EnsureWritable(len) => bytes
    case Shrink(reserve) => bytes
    case ReadFd(data) => bytes + data
  }

  /** The space an operation asks for. */
  function Wanted(op: Op): nat {
    match op
    case Append(data) => |data|
    case EnsureWritable(len) => len
    case ReadFd(data) => |data|
    case Shrink(reserve) => reserve
    case _ => 0
  }

  function Prefixed(op: Op): nat {
    match op
    case Prepend(data) => |data|
    case _ => 0
  }

  // ---- one step ----

  lemma EnsureMakesSpace(s: Store, len: nat)
    requires s.Valid()
    ensures var s' := AfterEnsure(s, len);
      && s'.Valid() && s'.Writable() >= len && s'.bytes == s.bytes
      && (s'.size > s.size ==> s'.Writable() == len && s'.size < |s.bytes| + 2 * len + CHEAP_PREPEND)
      && s'.size >= s.size
      && (s'.reader == s.reader || s'.reader == CHEAP_PREPEND < s.reader)
  {
  }

  /** A buffer that has been emptied has all its storage but the cheap prepend space to write to. */
  lemma EmptiedIsReset(s: Store)
    requires s.Valid()
    ensures var s' := After(s, Op.Retrieve(|s.bytes|));
      s'.bytes == "" && s'.Writable() == s.size - CHEAP_PREPEND
  {
  }

  /** A shrunk buffer is what a new one becomes that is given the space and then the bytes. */
  lemma ShrinkIsRebuilding(s: Store, reserve: nat)
    requires s.Valid() && Enabled(s, Op.Shrink(reserve))
    ensures var s' := After(s, Op.Shrink(reserve));
      && AfterAppend(AfterEnsure(New(INITIAL_SIZE), |s.bytes| + reserve), s.bytes) == s'
      && s'.Writable() >= reserve
  {
    assert "" + s.bytes == s.bytes;
  }

  /** A step does to the bytes what was promised, never takes cheap prepend space, and grows only on demand. */
  lemma StepKeepsPromise(s: Store, op: Op)
    requires s.Valid() && Enabled(s, op)
    ensures var s' := After(s, op);
      && s'.Valid()
      && s'.bytes == Queue(s.bytes, op)
      && (s'.reader + Prefixed(op) >= s.reader || s'.reader >= CHEAP_PREPEND)
      && (s'.size <= s.size || s'.size <= 2 * (|s.bytes| + Wanted(op)) + CHEAP_PREPEND
           || s'.size == CHEAP_PREPEND + INITIAL_SIZE)
  {
    match op
    case ReadFd(data) =>
      if |data| > s.Writable() {
        assert data[..s.Writable()] + data[s.Writable()..] == data;
        assert s.bytes + data[..s.Writable()] + data[s.Writable()..] == s.bytes + data;
      }
    case _ =>
  }

  // ---- whole runs ----

  predicate Runs(s: Store, ops: seq<Op>)
    requires s.Valid()
    decreases |ops|
  {
    ops == [] || (Enabled(s, ops[0]) && Runs(After(s, ops[0]), ops[1..]))
  }

  function Final(s: Store, ops: seq<Op>): (s': Store)
    requires s.Valid() && Runs(s, ops)
    ensures s'.Valid()
    decreases |ops|
  {
    if ops == [] then s else Final(After(s, ops[0]), ops[1..])
  }

  function QueueRun(bytes: string, ops: seq<Op>): string
    decreases |ops|
  {
    if ops == [] then bytes else QueueRun(Queue(bytes, ops[0]), ops[1..])
  }

  function PrefixedIn(ops: seq<Op>): nat {
    if ops == [] then 0 else Prefixed(ops[0]) + PrefixedIn(ops[1..])
  }

  /** The most bytes that are ever held or asked for at once. */
  function Peak(bytes: string, ops: seq<Op>): nat
    decreases |ops|
  {
    if ops == [] then |bytes|
    else
      var here := |bytes| + Wanted(ops[0]);
      var later := Peak(Queue(bytes, ops[0]), ops[1..]);
      if here <= later then later else here
  }

  /**
   Whatever the operations, the bytes are those of the simple queue; prepending has used
   no more of the cheap prepend space than was prepended; and the storage stays within
   twice the peak demand.
   */
  lemma {:induction false} RunRefinesQueue(s: Store, ops: seq<Op>)
    requires s.Valid() && Runs(s, ops)
    ensures var s' := Final(s, ops);
      && s'.bytes == QueueRun(s.bytes, ops)
      && (s'.reader + PrefixedIn(ops) >= s.reader || s'.reader + PrefixedIn(ops) >= CHEAP_PREPEND)
      && (s'.size <= s.size || s'.size <= 2 * Peak(s.bytes, ops) + CHEAP_PREPEND
           || s'.size <= CHEAP_PREPEND + INITIAL_SIZE)
    decreases |ops|
  {
    hide After, Enabled, Queue;
    if ops != [] {
      StepKeepsPromise(s, ops[0]);
      RunRefinesQueue(After(s, ops[0]), ops[1..]);
    }
  }

  /** A buffer always has room in front for what is missing of eight prepended bytes. */
  lemma CheapPrependIsAlwaysThere(initialSize: nat, ops: seq<Op>, data: string)
    requires Runs(New(initialSize), ops)
    requires PrefixedIn(ops) + |data| <= CHEAP_PREPEND
    ensures Enabled(Final(New(initialSize), ops), Prepend(data))
  {
    hide After, Runs, Final;
    RunRefinesQueue(New(initialSize), ops);
  }

  // ---- two buffers that are swapped ----

  datatype PairOp =
    | First(op: Op)
    | Second(op: Op)
    | Swap

  datatype Pair = Pair(first: Store, second: Store) {
    predicate Valid() { first.Valid() && second.Valid() }
  }

  predicate PairEnabled(p: Pair, op: PairOp) {
    match op
    case First(op) => Enabled(p.first, op)
    case Second(op) => Enabled(p.second, op)
    case Swap => true
  }

  function AfterPair(p: Pair, op: PairOp): (p': Pair)
    requires p.Valid() && PairEnabled(p, op)
    ensures p'.Valid()
  {
    match op
    case First(op) => p.(first := After(p.first, op))
    case Second(op) => p.(second := After(p.second, op))
    case Swap => Pair(p.second, p.first)
  }

  predicate PairRuns(p: Pair, ops: seq<PairOp>)
    requires p.Valid()
    decreases |ops|
  {
    ops == [] || (PairEnabled(p, ops[0]) && PairRuns(AfterPair(p, ops[0]), ops[1..]))
  }

  function PairFinal(p: Pair, ops: seq<PairOp>): (p': Pair)
    requires p.Valid() && PairRuns(p, ops)
    ensures p'.Valid()
    decreases |ops|
  {
    if ops == [] then p else PairFinal(AfterPair(p, ops[0]), ops[1..])
  }

  function PairQueueRun(a: string, b: string, ops: seq<PairOp>): (string, string)
    decreases |ops|
  {
    if ops == [] then (a, b)
    else match ops[0]
      case First(op) => PairQueueRun(Queue(a, op), b, ops[1..])
      case Second(op) => PairQueueRun(a, Queue(b, op), ops[1..])
      case Swap => PairQueueRun(b, a, ops[1..])
  }

  /** Two buffers, however they are used and swapped, act as two simple queues that are exchanged. */
  lemma {:induction false} PairRefinesQueues(p: Pair, ops: seq<PairOp>)
    requires p.Valid() && PairRuns(p, ops)
    ensures var p' := PairFinal(p, ops);
      (p'.first.bytes, p'.second.bytes) == PairQueueRun(p.first.bytes, p.second.bytes, ops)
    decreases |ops|
  {
    hide After, Enabled, Queue;
    if ops != [] {
      match ops[0] {
        case First(op) => StepKeepsPromise(p.first, op);
        case Second(op) => StepKeepsPromise(p.second, op);
        case Swap =>
      }
      PairRefinesQueues(AfterPair(p, ops[0]), ops[1..]);
    }
  }
}
