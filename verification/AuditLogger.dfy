/**
 * One channel of the asynchronous audit logger, internal/audit/logger.go, as interleaved atomic steps of the
 * producers, the flush worker, Stop and Flush. The four channels have the same shape.
 */
module AuditLogger {

  import opened Common

  /** bufferSize is the capacity of the channel; enabled is the level filter. */
  datatype Config = Config(bufferSize: nat, maxBatchSize: int, enabled: bool, dropOnFull: bool)

  /** Where the flush worker is. While it writes a batch, rest is what is left of the size entries. */
  datatype Worker<E> = Absent | Selecting | Flushing(rest: seq<E>, size: nat, exiting: bool) | Exited

  /** Where the last call of Stop is. Its drain takes an entry in hand before it writes it. */
  datatype Stopper<E> = Idle | Waiting | Draining(hand: Option<E>) | Done

  datatype Receiver = ToWorker | ToDrain | ToFlush

  /**
   * inFlush holds the entries that calls of Flush have taken and not yet written. accepted, offered and direct are
   * history: entries the channel took, calls of LogQuery that passed the level filter, and entries written by a drain
   * rather than by the worker.
   */
  datatype State<E> = State(
    chan: seq<E>, batch: seq<E>, worker: Worker<E>, started: bool, cancelled: bool, stopper: Stopper<E>,
    inFlush: seq<E>, written: seq<E>, dropped: nat, queriesLogged: nat,
    accepted: seq<E>, offered: nat, direct: nat)

  /** FlushWrite(i) is the write by the Flush that holds entry i of inFlush; several may be under way. */
  datatype Action<E> =
    | LogQuery(entry: E)
    | HandOver(entry: E, to: Receiver)
    | Start
    | Receive
    | Tick
    | Exit
    | WriteOne
    | EndFlush
    | Cancel
    | Join
    | DrainTake
    | DrainWrite
    | DrainEnd
    | FlushTake
    | FlushWrite(i: nat)

  function Initial<E>(): State<E> {
    State([], [], Absent, false, false, Idle, [], [], 0, 0, [], 0, 0)
  }

  /** The worker appends an entry to its batch, and starts a flush when the batch is full. */
  function Take<E>(c: Config, s: State<E>, entry: E): State<E> {
    var batch := s.batch + [entry];
    if |batch| >= c.maxBatchSize then s.(batch := [], worker := Flushing(batch, |batch|, false)) else s.(batch := batch)
  }

  /**
   * Can a producer hand its entry straight to the receiver? Only through an unbuffered channel; a drain never waits, so
   * it meets only a producer that does.
   */
  predicate Meets<E>(c: Config, s: State<E>, to: Receiver) {
    && c.enabled && c.bufferSize == 0
    && match to
       case ToWorker => s.worker.Selecting?
       case ToDrain => !c.dropOnFull && CanDrain(s)
       case ToFlush => !c.dropOnFull
  }

  /** Stop is draining and has nothing in hand. */
  predicate CanDrain<E>(s: State<E>) {
    s.stopper.Draining? && s.stopper.hand.None?
  }

  function Accept<E>(s: State<E>, entry: E): State<E> {
    s.(accepted := s.accepted + [entry], offered := s.offered + 1)
  }

  /** An action that cannot happen in a state leaves it alone. */
  function Next<E>(c: Config, s: State<E>, a: Action<E>): State<E> {
    match a
    case LogQuery(entry) =>
      if !c.enabled then s
      else if |s.chan| < c.bufferSize then Accept(s, entry).(chan := s.chan + [entry])
      else if c.dropOnFull then s.(dropped := s.dropped + 1, offered := s.offered + 1)
      else s // the producer stays blocked
    case HandOver(entry, to) =>
      if !Meets(c, s, to) then s
      else (match to
            case ToWorker => Take(c, Accept(s, entry), entry)
            case ToDrain => Accept(s, entry).(stopper := Draining(Some(entry)))
            case ToFlush => Accept(s, entry).(inFlush := s.inFlush + [entry]))
    case Start =>
      if s.started || s.stopper.Waiting? || s.stopper.Draining? then s
      else s.(started := true, worker := Selecting, stopper := Idle)
    case Receive =>
      if !s.worker.Selecting? || s.chan == [] then s else Take(c, s.(chan := s.chan[1..]), s.chan[0])
    case Tick =>
      if !s.worker.Selecting? || s.batch == [] then s
      else s.(batch := [], worker := Flushing(s.batch, |s.batch|, false))
    case Exit =>
      if !s.worker.Selecting? || !s.cancelled then s
      else if s.batch == [] then s.(worker := Exited)
      else s.(batch := [], worker := Flushing(s.batch, |s.batch|, true))
    case WriteOne =>
      if !s.worker.Flushing? || s.worker.rest == [] then s
      else s.(written := s.written + [s.worker.rest[0]], worker := s.worker.(rest := s.worker.rest[1..]))
    case EndFlush =>
      if !s.worker.Flushing? || s.worker.rest != [] then s
      else s.(queriesLogged := s.queriesLogged + s.worker.size,
              worker := if s.worker.exiting then Exited else Selecting)
    case Cancel =>
      if !s.started then s else s.(started := false, cancelled := true, stopper := Waiting)
    case Join =>
      if !s.stopper.Waiting? || !s.worker.Exited? then s else s.(stopper := Draining(None))
    case DrainTake =>
      if !CanDrain(s) || s.chan == [] then s else s.(chan := s.chan[1..], stopper := Draining(Some(s.chan[0])))
    case DrainWrite =>
      if !s.stopper.Draining? || s.stopper.hand.None? then s
      else s.(written := s.written + [s.stopper.hand.value], stopper := Draining(None), direct := s.direct + 1)
    case DrainEnd =>
      if !CanDrain(s) || s.chan != [] then s else s.(stopper := Done)
    case FlushTake =>
      if s.chan == [] then s else s.(chan := s.chan[1..], inFlush := s.inFlush + [s.chan[0]])
    case FlushWrite(i) =>
      if i >= |s.inFlush| then s
      else s.(inFlush := s.inFlush[..i] + s.inFlush[i + 1..],
              written := s.written + [s.inFlush[i]], direct := s.direct + 1)
  }

  function Run<E>(c: Config, s: State<E>, actions: seq<Action<E>>): State<E> {
    if actions == [] then s else Next(c, Run(c, s, actions[..|actions| - 1]), actions[|actions| - 1])
  }

  function Hand<E>(s: State<E>): seq<E> {
    if s.stopper.Draining? && s.stopper.hand.Some? then [s.stopper.hand.value] else []
  }

  /** Entries in the hands of the worker and of Stop, oldest first. */
  function Held<E>(s: State<E>): seq<E> {
    (if s.worker.Flushing? then s.worker.rest else []) + s.batch + Hand(s)
  }

  /** All entries in the system; without Flush, in the order of their age. */
  function Pipeline<E>(s: State<E>): seq<E> {
    s.written + Held(s) + s.inFlush + s.chan
  }

  /** Nothing is lost, duplicated or reordered. */
  ghost predicate Fifo<E>(s: State<E>) {
    s.accepted == Pipeline(s)
  }

  /** Nothing is lost or duplicated. */
  ghost predicate Conserved<E>(s: State<E>) {
    multiset(s.accepted) == multiset(Pipeline(s))
  }

  function FlushProgress<E>(s: State<E>): int {
    if s.worker.Flushing? then s.worker.size - |s.worker.rest| else 0
  }

  /** What the counters say. */
  ghost predicate Balanced<E>(s: State<E>) {
    && s.offered == |s.accepted| + s.dropped
    && (s.worker.Flushing? ==> |s.worker.rest| <= s.worker.size)
    && s.queriesLogged + s.direct + FlushProgress(s) == |s.written|
  }

  ghost predicate Inv<E>(c: Config, s: State<E>) {
    && Balanced(s)
    && |s.chan| <= c.bufferSize
    && (s.batch != [] ==> |s.batch| < c.maxBatchSize && s.worker.Selecting?)
    && (s.stopper.Draining? || s.stopper.Done? ==> s.worker.Exited?)
    && (s.stopper.Waiting? ==> !s.worker.Absent? && s.cancelled)
    && (!s.started && s.stopper.Idle? ==> s.worker.Absent?)
    && (s.started ==> !s.worker.Absent? && s.stopper.Idle?)
    && (s.worker.Exited? || (s.worker.Flushing? && s.worker.exiting) ==> s.cancelled)
  }

  predicate Produces<E>(a: Action<E>) {
    a.LogQuery? || a.HandOver?
  }

  predicate ByWorker<E>(a: Action<E>) {
    a.Receive? || a.Tick? || a.Exit? || a.WriteOne? || a.EndFlush?
  }

  predicate ByFlush<E>(a: Action<E>) {
    a.FlushTake? || a.FlushWrite? || (a.HandOver? && a.to.ToFlush?)
  }

  lemma NextKeepsInv<E>(c: Config, s: State<E>, a: Action<E>)
    requires Inv(c, s)
    ensures Inv(c, Next(c, s, a))
  {
    hide Inv, Next;
    if Produces(a) {
      ProducerKeepsInv(c, s, a);
    } else if ByWorker(a) {
      WorkerKeepsInv(c, s, a);
    } else {
      CallerKeepsInv(c, s, a);
    }
  }

  lemma ProducerKeepsInv<E>(c: Config, s: State<E>, a: Action<E>)
    requires Inv(c, s) && Produces(a)
    ensures Inv(c, Next(c, s, a))
  {
  }

  lemma WorkerKeepsInv<E>(c: Config, s: State<E>, a: Action<E>)
    requires Inv(c, s) && ByWorker(a)
    ensures Inv(c, Next(c, s, a))
  {
  }

  lemma CallerKeepsInv<E>(c: Config, s: State<E>, a: Action<E>)
    requires Inv(c, s) && !Produces(a) && !ByWorker(a)
    ensures Inv(c, Next(c, s, a))
  {
  }

  // ---- How entries move down the pipeline ----

  /** The entry, if any, that the action moves past others. */
  function Mover<E>(c: Config, s: State<E>, a: Action<E>): seq<E> {
    match a
    case Receive => if s.worker.Selecting? then s.chan[..if s.chan == [] then 0 else 1] else []
    case DrainTake => if CanDrain(s) then s.chan[..if s.chan == [] then 0 else 1] else []
    case HandOver(entry, to) => if Meets(c, s, to) && !to.ToFlush? then [entry] else []
    case FlushWrite(i) => if i < |s.inFlush| then [s.inFlush[i]] else []
    case _ => []
  }

  /** The entries it overtakes: Flush overtakes the worker and Stop, and these overtake what Flush has in hand. */
  function Overtaken<E>(c: Config, s: State<E>, a: Action<E>): seq<E> {
    if Mover(c, s, a) == [] then [] else if a.FlushWrite? then Held(s) + s.inFlush[..a.i] else s.inFlush
  }

  /** The pipeline of s', but for the move, is that of s extended by gained. */
  ghost predicate Moves<E>(s: State<E>, s': State<E>, gained: seq<E>, mover: seq<E>, overtaken: seq<E>) {
    && s'.accepted == s.accepted + gained
    && var whole, size := Pipeline(s) + gained, |overtaken| + |mover|;
       exists n: nat | n + size <= |whole| ::
         && whole == whole[..n] + overtaken + mover + whole[n + size..]
         && Pipeline(s') == whole[..n] + mover + overtaken + whole[n + size..]
  }

  lemma Shift<E>(s: State<E>, s': State<E>, gained: seq<E>, mover: seq<E>, overtaken: seq<E>,
                 ahead: seq<E>, behind: seq<E>)
    requires s'.accepted == s.accepted + gained
    requires Pipeline(s) + gained == ahead + overtaken + mover + behind
    requires Pipeline(s') == ahead + mover + overtaken + behind
    ensures Moves(s, s', gained, mover, overtaken)
  {
    hide Pipeline;
    var whole, n, end := Pipeline(s) + gained, |ahead|, |ahead| + |overtaken| + |mover|;
    assert whole[..n] == ahead && whole[end..] == behind;
  }

  /** An action that moves nothing past anything. */
  lemma InPlace<E>(s: State<E>, s': State<E>, gained: seq<E>)
    requires s'.accepted == s.accepted + gained && Pipeline(s') == Pipeline(s) + gained
    ensures Moves(s, s', gained, [], [])
  {
    hide Pipeline, Moves;
    var whole := Pipeline(s) + gained;
    assert whole == whole + [] + [] + [];
    Shift(s, s', gained, [], [], whole, []);
  }

  /** Every action moves at most one entry past those it overtakes, and otherwise only adds what it accepts. */
  lemma NextMoves<E>(c: Config, s: State<E>, a: Action<E>) returns (gained: seq<E>)
    requires Inv(c, s)
    ensures Moves(s, Next(c, s, a), gained, Mover(c, s, a), Overtaken(c, s, a))
  {
    hide Take, Pipeline, Moves, Held, Balanced;
    var s' := Next(c, s, a);
    gained := [];
    match a
    case LogQuery(entry) =>
      if c.enabled && |s.chan| < c.bufferSize {
        gained := [entry];
        AcceptMoves(c, s, entry);
      } else {
        HoldsOn(c, s, a);
        StillHeld(s, s');
      }
    case HandOver(entry, to) =>
      if Meets(c, s, to) {
        gained := [entry];
        HandOverMoves(c, s, entry, to);
      } else {
        StillHeld(s, s');
      }
    case Receive => ReceiveMoves(c, s);
    case DrainTake => DrainTakeMoves(c, s);
    case FlushTake => FlushTakeMoves(c, s);
    case FlushWrite(i) => FlushWriteMoves(c, s, i);
    case WriteOne => WriteMoves(c, s);
    case DrainWrite => DrainWriteMoves(c, s);
    case _ =>
      HoldsOn(c, s, a);
      StillHeld(s, s');
  }

  lemma HoldsOn<E>(c: Config, s: State<E>, a: Action<E>)
    requires Inv(c, s)
    requires a.LogQuery? || a.Start? || a.Tick? || a.Exit? || a.EndFlush? || a.Cancel? || a.Join? || a.DrainEnd?
    ensures Held(Next(c, s, a)) == Held(s)
  {
  }

  lemma StillHeld<E>(s: State<E>, s': State<E>)
    requires s'.written == s.written && s'.chan == s.chan && s'.inFlush == s.inFlush && Held(s') == Held(s)
    requires s'.accepted == s.accepted
    ensures Moves(s, s', [], [], [])
  {
    hide Moves;
    InPlace(s, s', []);
  }

  lemma AcceptMoves<E>(c: Config, s: State<E>, entry: E)
    requires c.enabled && |s.chan| < c.bufferSize
    ensures Moves(s, Next(c, s, LogQuery(entry)), [entry], [], [])
  {
    hide Moves;
    var s' := Next(c, s, LogQuery(entry));
    assert Held(s') == Held(s);
    InPlace(s, s', [entry]);
  }

  /** The worker takes an entry before whatever Flush has in hand. */
  lemma TakeMoves<E>(c: Config, s: State<E>, entry: E)
    requires s.worker.Selecting? && Hand(s) == []
    ensures Pipeline(Take(c, s, entry)) == (s.written + Held(s)) + [entry] + s.inFlush + s.chan
  {
    assert Held(s) == s.batch;
    assert Held(Take(c, s, entry)) == s.batch + [entry];
  }

  lemma HandOverMoves<E>(c: Config, s: State<E>, entry: E, to: Receiver)
    requires Inv(c, s) && Meets(c, s, to)
    ensures var a := HandOver(entry, to); Moves(s, Next(c, s, a), [entry], Mover(c, s, a), Overtaken(c, s, a))
  {
    hide Take, Moves, Balanced, Held, Pipeline;
    match to
    case ToWorker => HandToWorker(c, s, entry);
    case ToDrain => HandToDrain(c, s, entry);
    case ToFlush => HandToFlush(s, entry);
  }

  lemma HandToWorker<E>(c: Config, s: State<E>, entry: E)
    requires s.worker.Selecting? && Hand(s) == [] && s.chan == []
    ensures Moves(s, Take(c, Accept(s, entry), entry), [entry], [entry], s.inFlush)
  {
    hide Take, Moves, Balanced;
    TakeMoves(c, Accept(s, entry), entry);
    TakeKeepsRest(c, Accept(s, entry), entry);
    Shift(s, Take(c, Accept(s, entry), entry), [entry], [entry], s.inFlush, s.written + Held(s), []);
  }

  lemma HandToDrain<E>(c: Config, s: State<E>, entry: E)
    requires Inv(c, s) && CanDrain(s) && s.chan == []
    ensures Moves(s, Accept(s, entry).(stopper := Draining(Some(entry))), [entry], [entry], s.inFlush)
  {
    hide Moves, Balanced;
    var s' := Accept(s, entry).(stopper := Draining(Some(entry)));
    assert Held(s') == Held(s) + [entry];
    Shift(s, s', [entry], [entry], s.inFlush, s.written + Held(s), []);
  }

  lemma HandToFlush<E>(s: State<E>, entry: E)
    requires s.chan == []
    ensures Moves(s, Accept(s, entry).(inFlush := s.inFlush + [entry]), [entry], [], [])
  {
    hide Moves;
    InPlace(s, Accept(s, entry).(inFlush := s.inFlush + [entry]), [entry]);
  }

  lemma TakeKeepsRest<E>(c: Config, s: State<E>, entry: E)
    ensures Take(c, s, entry).accepted == s.accepted
  {
  }

  lemma ReceiveMoves<E>(c: Config, s: State<E>)
    requires Inv(c, s)
    ensures Moves(s, Next(c, s, Receive), [], Mover(c, s, Receive), Overtaken(c, s, Receive))
  {
    hide Take, Moves, Balanced;
    if s.worker.Selecting? && s.chan != [] {
      var s1 := s.(chan := s.chan[1..]);
      assert s.chan == [s.chan[0]] + s.chan[1..];
      TakeMoves(c, s1, s.chan[0]);
      TakeKeepsRest(c, s1, s.chan[0]);
      assert Held(s1) == Held(s);
      Shift(s, Next(c, s, Receive), [], [s.chan[0]], s.inFlush, s.written + Held(s), s.chan[1..]);
    } else {
      StillHeld(s, s);
    }
  }

  lemma DrainTakeMoves<E>(c: Config, s: State<E>)
    requires Inv(c, s)
    ensures Moves(s, Next(c, s, DrainTake), [], Mover(c, s, DrainTake), Overtaken(c, s, DrainTake))
  {
    hide Moves, Balanced;
    if CanDrain(s) && s.chan != [] {
      var s' := Next(c, s, DrainTake);
      assert s.chan == [s.chan[0]] + s.chan[1..];
      assert Held(s') == Held(s) + [s.chan[0]];
      Shift(s, s', [], [s.chan[0]], s.inFlush, s.written + Held(s), s.chan[1..]);
    } else {
      StillHeld(s, s);
    }
  }

  lemma FlushTakeMoves<E>(c: Config, s: State<E>)
    ensures Moves(s, Next(c, s, FlushTake), [], [], [])
  {
    hide Moves;
    if s.chan == [] {
      StillHeld(s, s);
    } else {
      var s' := Next(c, s, FlushTake);
      assert s.chan == [s.chan[0]] + s.chan[1..];
      assert Held(s') == Held(s);
      InPlace(s, s', []);
    }
  }

  lemma FlushWriteMoves<E>(c: Config, s: State<E>, i: nat)
    ensures var a := FlushWrite(i); Moves(s, Next(c, s, a), [], Mover(c, s, a), Overtaken(c, s, a))
  {
    hide Moves;
    if i < |s.inFlush| {
      var s', x := Next(c, s, FlushWrite(i)), s.inFlush[i];
      assert s.inFlush == s.inFlush[..i] + [x] + s.inFlush[i + 1..];
      assert Held(s') == Held(s);
      Shift(s, s', [], [x], Held(s) + s.inFlush[..i], s.written, s.inFlush[i + 1..] + s.chan);
    } else {
      StillHeld(s, s);
    }
  }

  /** The worker writes the oldest entry it holds. */
  lemma WriteMoves<E>(c: Config, s: State<E>)
    ensures Moves(s, Next(c, s, WriteOne), [], [], [])
  {
    hide Moves;
    if s.worker.Flushing? && s.worker.rest != [] {
      var s' := Next(c, s, WriteOne);
      assert s.worker.rest == [s.worker.rest[0]] + s.worker.rest[1..];
      assert Held(s) == [s.worker.rest[0]] + Held(s');
      HeadWritten(s, s', s.worker.rest[0]);
    } else {
      StillHeld(s, s);
    }
  }

  /** So does Stop, which holds at most one when the worker holds none. */
  lemma DrainWriteMoves<E>(c: Config, s: State<E>)
    requires s.stopper.Draining? ==> s.worker.Exited? && s.batch == []
    ensures Moves(s, Next(c, s, DrainWrite), [], [], [])
  {
    hide Moves;
    if s.stopper.Draining? && s.stopper.hand.Some? {
      var s' := Next(c, s, DrainWrite);
      assert Held(s) == [s.stopper.hand.value] && Held(s') == [];
      HeadWritten(s, s', s.stopper.hand.value);
    } else {
      StillHeld(s, s);
    }
  }

  lemma HeadWritten<E>(s: State<E>, s': State<E>, x: E)
    requires s'.accepted == s.accepted && s'.inFlush == s.inFlush && s'.chan == s.chan
    requires s'.written == s.written + [x] && Held(s) == [x] + Held(s')
    ensures Moves(s, s', [], [], [])
  {
    hide Moves, Held;
    assert s.written + ([x] + Held(s')) == s.written + [x] + Held(s');
    InPlace(s, s', []);
  }

  // ---- Every run ----

  lemma NextConserves<E>(c: Config, s: State<E>, a: Action<E>)
    requires Inv(c, s) && Conserved(s)
    ensures Conserved(Next(c, s, a))
  {
    hide Inv, Next, Mover, Overtaken, Moves, Conserved;
    var gained := NextMoves(c, s, a);
    MovesConserve(s, Next(c, s, a), gained, Mover(c, s, a), Overtaken(c, s, a));
  }

  lemma MovesConserve<E>(s: State<E>, s': State<E>, gained: seq<E>, mover: seq<E>, overtaken: seq<E>)
    requires Moves(s, s', gained, mover, overtaken) && Conserved(s)
    ensures Conserved(s')
  {
    hide Pipeline;
    var whole := Pipeline(s) + gained;
    assert multiset(s'.accepted) == multiset(whole);
    assert multiset(whole) == multiset(Pipeline(s'));
  }

  /** In every interleaving, Flush included: counters balance, the batch stays small, nothing is lost or duplicated. */
  lemma {:induction false} EveryRunConserves<E>(c: Config, actions: seq<Action<E>>)
    ensures Inv(c, Run(c, Initial(), actions)) && Conserved(Run(c, Initial(), actions))
  {
    hide Next;
    if actions != [] {
      var n := |actions| - 1;
      EveryRunConserves(c, actions[..n]);
      NextKeepsInv(c, Run(c, Initial(), actions[..n]), actions[n]);
      NextConserves(c, Run(c, Initial(), actions[..n]), actions[n]);
    }
  }

  /** Two neighbours in a sequence may change places exactly if they commute. */
  lemma ExchangeIff<E>(ahead: seq<E>, m: seq<E>, o: seq<E>, behind: seq<E>)
    ensures ahead + m + o + behind == ahead + o + m + behind <==> m + o == o + m
  {
    assert ahead + o + m + behind == ahead + (o + m) + behind;
    assert ahead + m + o + behind == ahead + (m + o) + behind;
    Middle(ahead, o + m, m + o, behind);
  }

  lemma MovesInOrderIff<E>(s: State<E>, s': State<E>, gained: seq<E>, mover: seq<E>, overtaken: seq<E>)
    requires Fifo(s) && Moves(s, s', gained, mover, overtaken)
    ensures Fifo(s') <==> mover + overtaken == overtaken + mover
  {
    hide Pipeline;
    var whole, size := Pipeline(s) + gained, |overtaken| + |mover|;
    var n: nat :| n + size <= |whole| && whole == whole[..n] + overtaken + mover + whole[n + size..]
                  && Pipeline(s') == whole[..n] + mover + overtaken + whole[n + size..];
    ExchangeIff(whole[..n], mover, overtaken, whole[n + size..]);
  }

  /**
   * An action keeps the order exactly if it moves its entry past nothing but copies of it. So it is only through Flush
   * that entries change places: without one in hand, nothing but Flush overtakes.
   */
  lemma KeepsOrderIff<E>(c: Config, s: State<E>, a: Action<E>)
    requires Inv(c, s) && Fifo(s)
    ensures Fifo(Next(c, s, a)) <==>
              forall i :: 0 <= i < |Overtaken(c, s, a)| ==> [Overtaken(c, s, a)[i]] == Mover(c, s, a)
  {
    hide Fifo, Inv, Next, Held, Meets, CanDrain, Moves;
    var gained := NextMoves(c, s, a);
    var mover, overtaken := Mover(c, s, a), Overtaken(c, s, a);
    MovesInOrderIff(s, Next(c, s, a), gained, mover, overtaken);
    if mover != [] {
      assert mover == [mover[0]];
      RotatesIff(mover[0], overtaken);
    } else {
      assert overtaken == [] && overtaken + mover == mover + overtaken;
    }
  }

  lemma Middle<E>(a: seq<E>, m: seq<E>, m': seq<E>, b: seq<E>)
    requires |m| == |m'|
    ensures a + m + b == a + m' + b <==> m == m'
  {
    assert m == (a + m + b)[|a|..|a| + |m|] && m' == (a + m' + b)[|a|..|a| + |m'|];
  }

  lemma RotatesIff<E>(x: E, mid: seq<E>)
    ensures [x] + mid == mid + [x] <==> forall i :: 0 <= i < |mid| ==> [mid[i]] == [x]
  {
    if [x] + mid == mid + [x] {
      forall i | 0 <= i < |mid| ensures [mid[i]] == [x] {
        RotatesAt(x, mid, i);
      }
    }
    if forall i :: 0 <= i < |mid| ==> [mid[i]] == [x] {
      forall i | 0 <= i < |mid| ensures mid[i] == x {
        assert [mid[i]][0] == [x][0];
      }
      assert [x] + mid == mid + [x];
    }
  }

  lemma {:induction false} RotatesAt<E>(x: E, mid: seq<E>, i: nat)
    requires [x] + mid == mid + [x] && i < |mid|
    ensures mid[i] == x
  {
    assert ([x] + mid)[i] == (mid + [x])[i];
    if i > 0 {
      RotatesAt(x, mid, i - 1);
    }
  }

  ghost predicate NoFlush<E>(actions: seq<Action<E>>) {
    forall i :: 0 <= i < |actions| ==> !ByFlush(actions[i])
  }

  lemma {:induction false} NothingInFlush<E>(c: Config, actions: seq<Action<E>>)
    requires NoFlush(actions)
    ensures Run(c, Initial(), actions).inFlush == []
  {
    if actions != [] {
      NothingInFlush(c, actions[..|actions| - 1]);
    }
  }

  /** Without Flush, what was written, what the worker holds and what waits make up what was accepted, in order. */
  lemma {:induction false} EveryRunIsFifo<E>(c: Config, actions: seq<Action<E>>)
    requires NoFlush(actions)
    ensures
      var s := Run(c, Initial(), actions);
      Fifo(s) && s.inFlush == [] && s.accepted == s.written + Held(s) + s.chan
  {
    hide Next, Inv;
    NothingInFlush(c, actions);
    var s := Run(c, Initial(), actions);
    assert s.written + Held(s) + s.inFlush + s.chan == s.written + Held(s) + s.chan;
    if actions != [] {
      var n := |actions| - 1;
      EveryRunIsFifo(c, actions[..n]);
      EveryRunConserves(c, actions[..n]);
      assert !ByFlush(actions[n]);
      KeepsOrderIff(c, Run(c, Initial(), actions[..n]), actions[n]);
    }
  }

  // ---- Accepting and dropping ----

  /** A hand-over through an unbuffered channel finds its receiver ready. */
  predicate Ready<E>(c: Config, s: State<E>, to: Receiver) {
    match to
    case ToWorker => s.worker.Selecting?
    case ToDrain => !c.dropOnFull && s.stopper.Draining? && s.stopper.hand.None?
    case ToFlush => !c.dropOnFull
  }

  /**
   * A step drops an entry exactly if it logs one while the channel is full and dropping is asked for; without that the
   * producer is blocked and nothing changes. It accepts one exactly if there is room, or without a buffer a receiver.
   */
  lemma StepDropsIff<E>(c: Config, s: State<E>, a: Action<E>)
    ensures
      var s' := Next(c, s, a);
      var full := a.LogQuery? && c.enabled && |s.chan| >= c.bufferSize;
      var taken := c.enabled && ((a.LogQuery? && |s.chan| < c.bufferSize)
                                 || (a.HandOver? && c.bufferSize == 0 && Ready(c, s, a.to)));
      && s'.dropped == s.dropped + (if full && c.dropOnFull then 1 else 0)
      && s'.accepted == s.accepted + (if taken then [a.entry] else [])
      && s'.offered == s.offered + (if taken || (full && c.dropOnFull) then 1 else 0)
      && (full && !c.dropOnFull ==> s' == s)
  {
  }

  /** A logger that is not asked to drop never does; one that is switched off takes nothing either. */
  lemma {:induction false} DropsOnlyWhenAsked<E>(c: Config, actions: seq<Action<E>>)
    ensures !c.dropOnFull || !c.enabled ==> Run(c, Initial(), actions).dropped == 0
    ensures !c.enabled ==> Run(c, Initial(), actions).accepted == [] && Run(c, Initial(), actions).offered == 0
  {
    hide Next;
    if actions != [] {
      var n := |actions| - 1;
      DropsOnlyWhenAsked(c, actions[..n]);
      StepDropsIff(c, Run(c, Initial(), actions[..n]), actions[n]);
    }
  }

  /** The same two calls with room for one entry: one logger drops the second entry, the other blocks its producer. */
  lemma FullChannel(dropOnFull: bool)
    ensures
      var s := Run(Config(1, 100, true, dropOnFull), Initial(), [LogQuery(1), LogQuery(2)]);
      && s.accepted == [1] && s.chan == [1]
      && s.dropped == (if dropOnFull then 1 else 0) && s.offered == (if dropOnFull then 2 else 1)
  {
    hide Run;
    var c, s0: State<int> := Config(1, 100, true, dropOnFull), Initial();
    var r0: seq<Action<int>> := [];
    assert r0 + [LogQuery(1)] + [LogQuery(2)] == [LogQuery(1), LogQuery(2)];
    RunStarts(c, s0);
    RunSnoc(c, s0, r0, LogQuery(1));
    RunSnoc(c, s0, r0 + [LogQuery(1)], LogQuery(2));
  }

  // ---- The worker gets everything written ----

  predicate AtWork<E>(s: State<E>) {
    s.worker.Selecting? || (s.worker.Flushing? && !s.worker.exiting)
  }

  /** How far the worker is from having written everything. */
  function Backlog<E>(s: State<E>): nat {
    4 * |s.chan| + 3 * |s.batch| + if s.worker.Flushing? then 1 + |s.worker.rest| else 0
  }

  /** What a worker that has something to do does next, the ticker included. */
  function WorkerStep<E>(s: State<E>): Action<E> {
    if s.worker.Flushing? then (if s.worker.rest == [] then EndFlush else WriteOne)
    else if s.chan != [] then Receive else Tick
  }

  /** The worker is closer to the end, and still has what it had. */
  ghost predicate Advanced<E>(s: State<E>, s': State<E>) {
    AtWork(s') && Backlog(s') < Backlog(s) && s'.written + Held(s') + s'.chan == s.written + Held(s) + s.chan
  }

  lemma ReceiveAdvances<E>(c: Config, s: State<E>)
    requires s.worker.Selecting? && s.chan != [] && Hand(s) == []
    ensures Advanced(s, Next(c, s, Receive))
  {
    var s' := Next(c, s, Receive);
    assert s.chan == [s.chan[0]] + s.chan[1..];
    assert Held(s') == Held(s) + [s.chan[0]];
  }

  lemma TickAdvances<E>(c: Config, s: State<E>)
    requires s.worker.Selecting? && s.batch != []
    ensures Advanced(s, Next(c, s, Tick))
  {
    assert Held(Next(c, s, Tick)) == Held(s);
  }

  lemma WriteAdvances<E>(c: Config, s: State<E>)
    requires s.worker.Flushing? && !s.worker.exiting && s.worker.rest != []
    ensures Advanced(s, Next(c, s, WriteOne))
  {
    var s' := Next(c, s, WriteOne);
    assert s.worker.rest == [s.worker.rest[0]] + s.worker.rest[1..];
    assert Held(s) == [s.worker.rest[0]] + Held(s');
    assert s'.written + Held(s') == s.written + Held(s);
  }

  lemma EndAdvances<E>(c: Config, s: State<E>)
    requires s.worker.Flushing? && !s.worker.exiting && s.worker.rest == []
    ensures Advanced(s, Next(c, s, EndFlush))
  {
    assert Held(Next(c, s, EndFlush)) == Held(s);
  }

  lemma WorkerAdvances<E>(c: Config, s: State<E>)
    requires Inv(c, s) && AtWork(s) && Backlog(s) > 0
    ensures ByWorker(WorkerStep(s)) && Advanced(s, Next(c, s, WorkerStep(s)))
  {
    hide Balanced, Next, Advanced, Held;
    if s.worker.Flushing? {
      if s.worker.rest == [] {
        EndAdvances(c, s);
      } else {
        WriteAdvances(c, s);
      }
    } else if s.chan != [] {
      ReceiveAdvances(c, s);
    } else {
      TickAdvances(c, s);
    }
  }

  /**
   * A worker that has not been told to exit can always catch up by itself: receiving, ticking and writing, it brings
   * everything it holds and everything in the channel into the store, in order.
   */
  lemma {:induction false} WorkerCanCatchUp<E>(c: Config, s: State<E>) returns (later: seq<Action<E>>)
    requires Inv(c, s) && AtWork(s)
    ensures forall i :: 0 <= i < |later| ==> ByWorker(later[i])
    ensures
      var s' := Run(c, s, later);
      s'.worker.Selecting? && s'.batch == [] && s'.chan == [] && s'.written == s.written + Held(s) + s.chan
    decreases Backlog(s)
  {
    hide Next, Inv;
    RunStarts(c, s);
    if Backlog(s) == 0 {
      later := [];
      NothingHeld(c, s);
    } else {
      var a := WorkerStep(s);
      WorkerAdvances(c, s);
      NextKeepsInv(c, s, a);
      var rest := WorkerCanCatchUp(c, Next(c, s, a));
      RunSnoc(c, s, [], a);
      RunConcat(c, s, [a], rest);
      later := [a] + rest;
    }
  }

  lemma NothingHeld<E>(c: Config, s: State<E>)
    requires Inv(c, s) && AtWork(s) && Backlog(s) == 0
    ensures s.worker.Selecting? && s.batch == [] && s.chan == [] && Held(s) == []
  {
  }

  // ---- Stop ----

  lemma {:induction false} RunConcat<E>(c: Config, s: State<E>, first: seq<Action<E>>, later: seq<Action<E>>)
    ensures Run(c, s, first + later) == Run(c, Run(c, s, first), later)
  {
    hide Next;
    if later == [] {
      assert first + later == first;
    } else {
      var n := |later| - 1;
      RunConcat(c, s, first, later[..n]);
      assert (first + later)[..|first + later| - 1] == first + later[..n];
    }
  }

  ghost predicate Quiet<E>(actions: seq<Action<E>>) {
    forall i :: 0 <= i < |actions| ==> !Produces(actions[i])
  }

  lemma NextStaysEmpty<E>(c: Config, s: State<E>, a: Action<E>)
    requires s.chan == [] && !Produces(a)
    ensures Next(c, s, a).chan == [] && (s.inFlush == [] ==> Next(c, s, a).inFlush == [])
  {
  }

  /** Once the channel is empty and producers are quiet, it stays empty, and what Flush has in hand only gets less. */
  lemma {:induction false} QuietStaysEmpty<E>(c: Config, s: State<E>, later: seq<Action<E>>)
    requires s.chan == [] && Quiet(later)
    ensures Run(c, s, later).chan == [] && (s.inFlush == [] ==> Run(c, s, later).inFlush == [])
  {
    hide Next;
    if later != [] {
      QuietStaysEmpty(c, s, later[..|later| - 1]);
      NextStaysEmpty(c, Run(c, s, later[..|later| - 1]), later[|later| - 1]);
    }
  }

  /** With an empty channel and the worker gone, Flush alone decides whether all is in the store. */
  lemma OnlyFlushHolds<E>(c: Config, s: State<E>)
    requires Inv(c, s) && Conserved(s) && s.chan == [] && s.stopper.Done?
    ensures multiset(s.accepted) == multiset(s.written) + multiset(s.inFlush)
    ensures multiset(s.written) == multiset(s.accepted) <==> s.inFlush == []
  {
    assert Held(s) == [];
    assert Pipeline(s) == s.written + s.inFlush;
    if s.inFlush != [] {
      assert s.inFlush[0] in multiset(s.inFlush);
      assert multiset(s.written)[s.inFlush[0]] < multiset(s.accepted)[s.inFlush[0]];
    }
  }

  /**
   * Stop's drain ends when it finds the channel empty. At that moment every accepted entry has been handed to the store
   * exactly once if and only if no call of Flush still has one in hand; what is missing is exactly what they hold.
   */
  lemma StopHandsOverIff<E>(c: Config, actions: seq<Action<E>>)
    requires var s := Run(c, Initial(), actions); CanDrain(s) && s.chan == []
    ensures
      var s, s' := Run(c, Initial(), actions), Run(c, Initial(), actions + [DrainEnd]);
      && s'.stopper.Done?
      && multiset(s'.accepted) == multiset(s'.written) + multiset(s.inFlush)
      && (multiset(s'.written) == multiset(s'.accepted) <==> s.inFlush == [])
  {
    hide Inv, Conserved;
    RunSnoc(c, Initial(), actions, DrainEnd);
    EveryRunConserves(c, actions + [DrainEnd]);
    OnlyFlushHolds(c, Run(c, Initial(), actions + [DrainEnd]));
  }

  /**
   * If producers stay quiet after that, all is in the store as soon as those calls of Flush have written what they
   * held, and stays there for as long as the logger stays stopped; in order if Flush was never called.
   */
  lemma StoppedStaysComplete<E>(c: Config, actions: seq<Action<E>>, later: seq<Action<E>>)
    requires var s := Run(c, Initial(), actions); CanDrain(s) && s.chan == []
    requires Quiet(later)
    ensures
      var s := Run(c, Initial(), actions + [DrainEnd] + later);
      s.stopper.Done? ==>
        && (multiset(s.written) == multiset(s.accepted) <==> s.inFlush == [])
        && (Run(c, Initial(), actions).inFlush == [] ==> s.inFlush == [])
        && (NoFlush(actions + [DrainEnd] + later) ==> s.written == s.accepted)
  {
    hide Inv, Conserved;
    var all := actions + [DrainEnd] + later;
    var s := Run(c, Initial(), all);
    RunConcat(c, Initial(), actions + [DrainEnd], later);
    RunSnoc(c, Initial(), actions, DrainEnd);
    QuietStaysEmpty(c, Run(c, Initial(), actions + [DrainEnd]), later);
    EveryRunConserves(c, all);
    if s.stopper.Done? {
      OnlyFlushHolds(c, s);
      if NoFlush(all) {
        EveryRunIsFifo(c, all);
        HoldsNothing(c, s);
      }
    }
  }

  lemma HoldsNothing<E>(c: Config, s: State<E>)
    requires Inv(c, s) && s.stopper.Done?
    ensures Held(s) == []
  {
  }

  /** How far a call of Stop still has to go. */
  function Distance<E>(s: State<E>): nat {
    match s.stopper
    case Idle => 0
    case Done => 0
    case Draining(hand) => 1 + 2 * |s.chan| + |Hand(s)|
    case Waiting =>
      match s.worker
      case Absent => 0
      case Exited => 2 + 2 * |s.chan|
      case Selecting => 4 + 2 * |s.chan| + |s.batch|
      case Flushing(rest, _, exiting) => (if exiting then 3 else 5) + 2 * |s.chan| + |rest|
  }

  /** The next action of a call of Stop, or of the worker it waits for. */
  function Onward<E>(s: State<E>): Action<E> {
    if s.stopper.Draining? then
      if s.stopper.hand.Some? then DrainWrite else if s.chan == [] then DrainEnd else DrainTake
    else if s.worker.Exited? then Join
    else if s.worker.Selecting? then Exit
    else if s.worker.Flushing? && s.worker.rest == [] then EndFlush else WriteOne
  }

  lemma OnwardIsCloser<E>(c: Config, s: State<E>)
    requires Inv(c, s) && (s.stopper.Waiting? || s.stopper.Draining?)
    ensures var s' := Next(c, s, Onward(s));
            && (s'.stopper.Waiting? || s'.stopper.Draining? || s'.stopper.Done?)
            && (s'.stopper.Done? || Distance(s') < Distance(s))
  {
    hide Balanced;
  }

  /** From any reachable state Stop can run to completion without a producer or another caller: it is never stuck. */
  lemma {:induction false} StopCanComplete<E>(c: Config, s: State<E>) returns (later: seq<Action<E>>)
    requires Inv(c, s) && (s.stopper.Waiting? || s.stopper.Draining?)
    ensures Run(c, s, later).stopper.Done?
    ensures Quiet(later) && NoFlush(later)
    decreases Distance(s)
  {
    hide Inv, Next, Distance;
    var a := Onward(s);
    NextKeepsInv(c, s, a);
    OnwardIsCloser(c, s);
    var s' := Next(c, s, a);
    assert Run(c, s, []) == s && Run(c, s, [a]) == s';
    if s'.stopper.Done? {
      later := [a];
    } else {
      var rest := StopCanComplete(c, s');
      RunConcat(c, s, [a], rest);
      later := [a] + rest;
    }
  }

  lemma NextStaysCancelled<E>(c: Config, s: State<E>, a: Action<E>)
    ensures s.cancelled ==> Next(c, s, a).cancelled
    ensures s.started && a.Cancel? ==> Next(c, s, a).cancelled
  {
  }

  /** A logger that was stopped once stays cancelled, so a worker started after that may exit whenever it selects. */
  lemma {:induction false} RestartedMayExit<E>(c: Config, s: State<E>, later: seq<Action<E>>)
    requires s.cancelled
    ensures
      var s' := Run(c, s, later);
      && s'.cancelled
      && (s'.worker.Selecting? && s'.batch == [] ==> Next(c, s', Exit).worker.Exited?)
  {
    if later != [] {
      RestartedMayExit(c, s, later[..|later| - 1]);
      NextStaysCancelled(c, Run(c, s, later[..|later| - 1]), later[|later| - 1]);
    }
  }

  // ---- Flush ----

  lemma RunStarts<E>(c: Config, s: State<E>)
    ensures Run(c, s, []) == s
  {
  }

  lemma RunSnoc<E>(c: Config, s: State<E>, actions: seq<Action<E>>, a: Action<E>)
    ensures Run(c, s, actions + [a]) == Next(c, Run(c, s, actions), a)
  {
    hide Next;
    assert (actions + [a])[..|actions|] == actions;
  }

  const WITNESS := Config(10, 100, true, true)

  /** A run on which Flush reorders two entries. */
  lemma FlushReorders()
    ensures
      var s := Run(WITNESS, Initial(), [Start, LogQuery(1), Receive, LogQuery(2), FlushTake, FlushWrite(0)]);
      s.accepted == [1, 2] && s.written == [2] && Held(s) == [1] && !Fifo(s)
  {
    hide Run;
    var s0: State<int> := Initial();
    var r0: seq<Action<int>> := [];
    var r1 := r0 + [Start];
    var r2 := r1 + [LogQuery(1)];
    var r3 := r2 + [Receive];
    var r4 := r3 + [LogQuery(2)];
    var r5 := r4 + [FlushTake];
    var r6 := r5 + [FlushWrite(0)];
    assert r6 == [Start, LogQuery(1), Receive, LogQuery(2), FlushTake, FlushWrite(0)];
    RunStarts(WITNESS, s0);
    RunSnoc(WITNESS, s0, r0, Start);
    RunSnoc(WITNESS, s0, r1, LogQuery(1));
    RunSnoc(WITNESS, s0, r2, Receive);
    RunSnoc(WITNESS, s0, r3, LogQuery(2));
    RunSnoc(WITNESS, s0, r4, FlushTake);
    RunSnoc(WITNESS, s0, r5, FlushWrite(0));
    assert Run(WITNESS, s0, r3)
           == s0.(started := true, worker := Selecting, batch := [1], accepted := [1], offered := 1);
    assert Run(WITNESS, s0, r6) == Run(WITNESS, s0, r3).(accepted := [1, 2], offered := 2, written := [2], direct := 1);
    assert Pipeline(Run(WITNESS, s0, r6))[0] == 2 && Run(WITNESS, s0, r6).accepted[0] == 1;
  }

  /** A run on which Stop completes while a call of Flush has taken the only entry and not yet written it. */
  lemma StopOutrunsFlush()
    ensures
      var s := Run(WITNESS, Initial(), [Start, LogQuery(1), FlushTake, Cancel, Exit, Join, DrainEnd]);
      s.stopper.Done? && s.accepted == [1] && s.written == [] && s.inFlush == [1]
  {
    hide Run;
    var s0: State<int> := Initial();
    var r0: seq<Action<int>> := [];
    var r1 := r0 + [Start];
    var r2 := r1 + [LogQuery(1)];
    var r3 := r2 + [FlushTake];
    var r4 := r3 + [Cancel];
    var r5 := r4 + [Exit];
    var r6 := r5 + [Join];
    var r7 := r6 + [DrainEnd];
    assert r7 == [Start, LogQuery(1), FlushTake, Cancel, Exit, Join, DrainEnd];
    var s3 := s0.(started := true, worker := Selecting, inFlush := [1], accepted := [1], offered := 1);
    assert Run(WITNESS, s0, r3) == s3 by {
      RunStarts(WITNESS, s0);
      RunSnoc(WITNESS, s0, r0, Start);
      RunSnoc(WITNESS, s0, r1, LogQuery(1));
      RunSnoc(WITNESS, s0, r2, FlushTake);
    }
    assert Run(WITNESS, s0, r5) == s3.(started := false, cancelled := true, stopper := Waiting, worker := Exited) by {
      RunSnoc(WITNESS, s0, r3, Cancel);
      RunSnoc(WITNESS, s0, r4, Exit);
    }
    RunSnoc(WITNESS, s0, r5, Join);
    RunSnoc(WITNESS, s0, r6, DrainEnd);
  }
}
