/** The bounded backlog of AudioDecoder.hpp: one thread adds packets and drops old ones when the
    decoding thread falls behind.  Every step is one call on the shared queue (see
    `SuspensionQueue`), or what a thread does by itself between two such calls. */
module AudioDecoder {
  import opened Runs

  const MAX_DELAY_LIMIT_COUNT := 4

  datatype Producer<T> =
    | Idle
    | TestFull(packet: T) // in add, before `size() > MAX_DELAY_LIMIT_COUNT`
    | TestMore(packet: T) // before `size() > 2`
    | Popping(packet: T)  // in pop, which blocks while the queue is empty
    | Pushing(packet: T)  // before push

  datatype Decoder<T> = Ready | Decoding(packet: T)

  datatype Taken<T> = Dropped(packet: T) | ToDecode(packet: T)

  datatype State<T> = State(
    queue: seq<T>,
    producer: Producer<T>,
    decoder: Decoder<T>,
    added: seq<T>,        // everything pushed
    taken: seq<Taken<T>>, // everything popped, by whom, in order
    decoded: seq<T>)

  datatype Step<T> = StartAdd(packet: T) | Look | Drop | PushPacket | TakePacket | Decode {
    predicate ByProducer() { !TakePacket? && !Decode? }
  }

  predicate Enabled<T>(s: State<T>, step: Step<T>) {
    match step
    case StartAdd(_) => s.producer.Idle?
    case Look => s.producer.TestFull? || s.producer.TestMore?
    case Drop => s.producer.Popping? && s.queue != []
    case PushPacket => s.producer.Pushing?
    case TakePacket => s.decoder.Ready? && s.queue != []
    case Decode => s.decoder.Decoding?
  }

  function Apply<T>(s: State<T>, step: Step<T>): State<T> {
    if !Enabled(s, step) then s else
    match step
    case StartAdd(p) => s.(producer := TestFull(p))
    case Look =>
      var p := s.producer.packet;
      if s.producer.TestFull? then
        s.(producer := if |s.queue| > MAX_DELAY_LIMIT_COUNT then TestMore(p) else Pushing(p))
      else
        s.(producer := if |s.queue| > 2 then Popping(p) else Pushing(p))
    case Drop =>
      s.(queue := s.queue[1..], taken := s.taken + [Dropped(s.queue[0])], producer := TestMore(s.producer.packet))
    case PushPacket =>
      s.(queue := s.queue + [s.producer.packet], added := s.added + [s.producer.packet], producer := Idle)
    case TakePacket =>
      s.(queue := s.queue[1..], taken := s.taken + [ToDecode(s.queue[0])], decoder := Decoding(s.queue[0]))
    case Decode =>
      s.(decoded := s.decoded + [s.decoder.packet], decoder := Ready)
  }

  predicate Init<T>(s: State<T>) {
    s == State([], Idle, Ready, [], [], [])
  }

  ghost function Backlog<T>(): System<State<T>, Step<T>> {
    System((s: State<T>) => Init(s), (s: State<T>, e: Step<T>) => Enabled(s, e),
           (s: State<T>, e: Step<T>) => Apply(s, e))
  }

  // ---- what every step keeps ----

  function Packets<T>(ts: seq<Taken<T>>): (ps: seq<T>)
    ensures |ps| == |ts| && forall i :: 0 <= i < |ts| ==> ps[i] == ts[i].packet
  {
    seq(|ts|, i requires 0 <= i < |ts| => ts[i].packet)
  }

  /** The packets that went to the decoder, in the order they were taken. */
  function ToDecoder<T>(ts: seq<Taken<T>>): seq<T> {
    if ts == [] then []
    else ToDecoder(ts[..|ts| - 1]) + if ts[|ts| - 1].ToDecode? then [ts[|ts| - 1].packet] else []
  }

  ghost predicate Inv<T>(s: State<T>) {
    && s.added == Packets(s.taken) + s.queue
    && ToDecoder(s.taken) == s.decoded + (if s.decoder.Decoding? then [s.decoder.packet] else [])
    && |s.queue| <= MAX_DELAY_LIMIT_COUNT + 1
    && (s.producer.Pushing? ==> |s.queue| <= MAX_DELAY_LIMIT_COUNT)
  }

  lemma TakenAppend<T>(ts: seq<Taken<T>>, t: Taken<T>)
    ensures Packets(ts + [t]) == Packets(ts) + [t.packet]
    ensures ToDecoder(ts + [t]) == ToDecoder(ts) + if t.ToDecode? then [t.packet] else []
  {
    assert (ts + [t])[..|ts|] == ts;
  }

  /** Taking the first packet of the backlog. */
  lemma TakeKeepsInv<T>(s: State<T>, t: Taken<T>)
    requires Inv(s) && s.queue != [] && t.packet == s.queue[0]
    ensures s.added == Packets(s.taken + [t]) + s.queue[1..]
    ensures ToDecoder(s.taken + [t]) == ToDecoder(s.taken) + if t.ToDecode? then [t.packet] else []
  {
    TakenAppend(s.taken, t);
    assert s.queue == [t.packet] + s.queue[1..];
  }

  lemma StepKeepsInv<T>(s: State<T>, step: Step<T>)
    requires Inv(s) && Enabled(s, step)
    ensures Inv(Apply(s, step))
  {
    match step
    case Drop =>
      TakeKeepsInv(s, Dropped(s.queue[0]));
      assert ToDecoder(s.taken) + [] == ToDecoder(s.taken);
    case TakePacket =>
      TakeKeepsInv(s, ToDecode(s.queue[0]));
      assert ToDecoder(s.taken) == s.decoded;
    case PushPacket =>
      assert Apply(s, step).added == Packets(s.taken) + (s.queue + [s.producer.packet]);
    case _ =>
  }

  /** `sub` is obtained from `s` by leaving elements out. */
  ghost predicate Subsequence<T>(sub: seq<T>, s: seq<T>) {
    sub == [] || (s != [] && (Subsequence(sub, s[..|s| - 1]) ||
                              (sub[|sub| - 1] == s[|s| - 1] && Subsequence(sub[..|sub| - 1], s[..|s| - 1]))))
  }

  lemma {:induction false} ToDecoderSubsequence<T>(ts: seq<Taken<T>>)
    ensures Subsequence(ToDecoder(ts), Packets(ts))
  {
    if ts != [] {
      var n := |ts| - 1;
      ToDecoderSubsequence(ts[..n]);
      assert Packets(ts)[..n] == Packets(ts[..n]);
      if !ts[n].ToDecode? {
        assert ToDecoder(ts) == ToDecoder(ts[..n]);
      } else {
        assert ToDecoder(ts)[..|ToDecoder(ts)| - 1] == ToDecoder(ts[..n]);
      }
    }
  }

  lemma {:induction false} SubsequenceInit<T>(sub: seq<T>, s: seq<T>)
    requires sub != [] && Subsequence(sub, s)
    ensures Subsequence(sub[..|sub| - 1], s)
  {
    if Subsequence(sub, s[..|s| - 1]) {
      SubsequenceInit(sub, s[..|s| - 1]);
    }
  }

  /** That is, its elements stand at increasing places of `s`. */
  lemma {:induction false} SubsequencePlaces<T>(sub: seq<T>, s: seq<T>) returns (at: seq<nat>)
    requires Subsequence(sub, s)
    ensures |at| == |sub| && forall i :: 0 <= i < |at| ==> at[i] < |s| && s[at[i]] == sub[i]
    ensures forall i, j :: 0 <= i < j < |at| ==> at[i] < at[j]
  {
    if sub == [] {
      return [];
    }
    if Subsequence(sub, s[..|s| - 1]) {
      at := SubsequencePlaces(sub, s[..|s| - 1]);
    } else {
      var init := SubsequencePlaces(sub[..|sub| - 1], s[..|s| - 1]);
      at := init + [|s| - 1];
    }
  }

  /** In every reachable state: the backlog is a suffix of what was added and at most five packets
      long; what was decoded is a subsequence, in order, of the part before the backlog. */
  lemma Safety<T(!new)>(s: State<T>)
    requires Reachable(Backlog(), s)
    ensures |s.queue| <= MAX_DELAY_LIMIT_COUNT + 1
    ensures |s.queue| <= |s.added| && s.queue == s.added[|s.added| - |s.queue|..]
    ensures Subsequence(s.decoded, s.added[..|s.added| - |s.queue|])
    ensures Inv(s)
  {
    forall s0: State<T>, e: Step<T> | Inv(s0) && Enabled(s0, e) ensures Inv(Apply(s0, e)) {
      StepKeepsInv(s0, e);
    }
    Invariant(Backlog<T>(), (s0: State<T>) => Inv(s0), s);
    assert s.added[..|s.added| - |s.queue|] == Packets(s.taken);
    ToDecoderSubsequence(s.taken);
    if s.decoder.Decoding? {
      SubsequenceInit(ToDecoder(s.taken), Packets(s.taken));
      assert ToDecoder(s.taken)[..|s.decoded|] == s.decoded;
    } else {
      assert ToDecoder(s.taken) == s.decoded;
    }
  }

  /** Five packets is the longest backlog: there can be so many, and never more. */
  lemma LongestBacklog() returns (s: State<int>)
    ensures Reachable(Backlog(), s) && |s.queue| == 5
    ensures forall s': State<int> :: Reachable(Backlog(), s') ==> |s'.queue| <= 5
  {
    forall s': State<int> | Reachable(Backlog(), s') ensures |s'.queue| <= 5 {
      Safety(s');
    }
    s := FullBacklog();
  }

  // ---- the producer can block itself ----

  /** The producer waits for a packet that only it could push. */
  ghost predicate Stuck<T>(s: State<T>) {
    s.producer.Popping? && s.queue == []
  }

  /** These are exactly the states in which the producer cannot take a step. */
  lemma StuckIffNoProducerStep<T(!new)>(s: State<T>, packet: T)
    ensures Stuck(s) <==> forall step: Step<T> :: step.ByProducer() ==> !Enabled(s, step)
  {
    var start: Step<T>, look: Step<T>, drop: Step<T>, push: Step<T> := StartAdd(packet), Look, Drop, PushPacket;
    assert start.ByProducer() && look.ByProducer() && drop.ByProducer() && push.ByProducer();
  }

  /** And they end everything: the decoder can finish the packet it has, and then no thread can
      take a step any more. */
  lemma {:induction false} StuckForever<T>(s: State<T>, run: seq<Step<T>>)
    requires Stuck(s) && Legal(Backlog(), s, run)
    ensures |run| <= if s.decoder.Decoding? then 1 else 0
    ensures Stuck(After(Backlog(), s, run)) && After(Backlog(), s, run).added == s.added
    decreases run
  {
    if run != [] {
      StuckForever(Apply(s, run[0]), run[1..]);
    }
  }

  /** How often the producer calls add in a run. */
  function Calls<T>(run: seq<Step<T>>): nat {
    if run == [] then 0 else (if run[0].StartAdd? then 1 else 0) + Calls(run[1..])
  }

  /** Some interleaving blocks the producer for ever within its next `calls` calls of add (or in the
      one it is in). */
  ghost predicate CanBlock<T(!new)>(s: State<T>, calls: nat) {
    exists run: seq<Step<T>> :: Legal(Backlog(), s, run) && Calls(run) <= calls && Stuck(After(Backlog(), s, run))
  }

  /** The producer will not try to drop a packet within `calls` calls. */
  ghost predicate Unhindered<T>(s: State<T>, calls: nat) {
    match s.producer
    case Idle => calls == 0 || (calls == 1 && |s.queue| <= MAX_DELAY_LIMIT_COUNT)
    case TestFull(_) => calls == 0 && |s.queue| <= MAX_DELAY_LIMIT_COUNT
    case Pushing(_) => calls == 0
    case _ => false
  }

  lemma {:induction false} UnhinderedNeverStuck<T>(s: State<T>, run: seq<Step<T>>, calls: nat)
    requires Unhindered(s, calls) && Legal(Backlog(), s, run) && Calls(run) <= calls
    ensures !Stuck(After(Backlog(), s, run))
    decreases run
  {
    if run != [] {
      UnhinderedNeverStuck(Apply(s, run[0]), run[1..], if run[0].StartAdd? then 0 else calls);
    }
  }

  /** The decoder alone: it works off the whole backlog. */
  lemma {:induction false} DrainBacklog<T>(s: State<T>) returns (run: seq<Step<T>>)
    ensures Legal(Backlog(), s, run) && Calls(run) == 0
    ensures After(Backlog(), s, run).queue == [] && After(Backlog(), s, run).producer == s.producer
    decreases |s.queue|, s.decoder.Decoding?
  {
    if s.queue == [] { return []; }
    var step: Step<T> := if s.decoder.Decoding? then Decode else TakePacket;
    var rest := DrainBacklog(Apply(s, step));
    run := [step] + rest;
    assert run[1..] == rest;
  }

  lemma StepCanBlock<T(!new)>(s: State<T>, step: Step<T>, calls: nat)
    requires Enabled(s, step) && CanBlock(Apply(s, step), calls)
    ensures CanBlock(s, calls + if step.StartAdd? then 1 else 0)
  {
    var rest: seq<Step<T>> :| && Legal(Backlog(), Apply(s, step), rest) && Calls(rest) <= calls
                              && Stuck(After(Backlog(), Apply(s, step), rest));
    var run := [step] + rest;
    assert run[1..] == rest;
    assert Legal(Backlog(), s, run) && Stuck(After(Backlog(), s, run));
  }

  /** In add, before the look at the size: the call can block for ever exactly if more than
      MAX_DELAY_LIMIT_COUNT packets are waiting. */
  lemma BlocksIffFull<T(!new)>(s: State<T>)
    requires s.producer.TestFull?
    ensures CanBlock(s, 0) <==> |s.queue| > MAX_DELAY_LIMIT_COUNT
  {
    if |s.queue| > MAX_DELAY_LIMIT_COUNT {
      var s1 := Apply(s, Look);
      var s2 := Apply(s1, Look);
      var run := DrainBacklog(s2);
      assert Stuck(After(Backlog(), s2, run));
      StepCanBlock(s1, Look, 0);
      StepCanBlock(s, Look, 0);
    } else {
      forall run: seq<Step<T>> | Legal(Backlog(), s, run) && Calls(run) <= 0 ensures !Stuck(After(Backlog(), s, run)) {
        UnhinderedNeverStuck(s, run, 0);
      }
    }
  }

  /** Before a call of add: the call can block for ever, under some interleaving with the decoder,
      exactly if more than MAX_DELAY_LIMIT_COUNT packets are waiting. */
  lemma AddBlocksIffFull<T(!new)>(s: State<T>, packet: T)
    requires s.producer.Idle?
    ensures CanBlock(s, 1) <==> |s.queue| > MAX_DELAY_LIMIT_COUNT
  {
    if |s.queue| > MAX_DELAY_LIMIT_COUNT {
      BlocksIffFull(Apply(s, StartAdd(packet)));
      StepCanBlock(s, StartAdd(packet), 0);
    } else {
      forall run: seq<Step<T>> | Legal(Backlog(), s, run) && Calls(run) <= 1 ensures !Stuck(After(Backlog(), s, run)) {
        UnhinderedNeverStuck(s, run, 1);
      }
    }
  }

  /** Adding one packet to a backlog that is not full. */
  lemma AddOne(s: State<int>, p: int) returns (s': State<int>)
    requires Reachable(Backlog(), s) && s.producer.Idle? && |s.queue| <= MAX_DELAY_LIMIT_COUNT
    ensures Reachable(Backlog(), s') && s' == s.(queue := s.queue + [p], added := s.added + [p])
  {
    StepReachable(Backlog(), s, StartAdd(p));
    s' := Apply(s, StartAdd(p));
    StepReachable(Backlog(), s', Look);
    s' := Apply(s', Look);
    StepReachable(Backlog(), s', PushPacket);
    s' := Apply(s', PushPacket);
  }

  lemma DecodeOne(s: State<int>) returns (s': State<int>)
    requires Reachable(Backlog(), s) && s.decoder.Ready? && s.queue != []
    ensures Reachable(Backlog(), s') && s'.producer == s.producer && s'.decoder.Ready? && s'.queue == s.queue[1..]
  {
    StepReachable(Backlog(), s, TakePacket);
    s' := Apply(s, TakePacket);
    StepReachable(Backlog(), s', Decode);
    s' := Apply(s', Decode);
  }

  lemma FullBacklog() returns (s: State<int>)
    ensures Reachable(Backlog(), s) && s.producer.Idle? && s.decoder.Ready? && |s.queue| == 5
  {
    s := State([], Idle, Ready, [], [], []);
    StartReachable(Backlog(), s);
    s := AddOne(s, 1);
    s := AddOne(s, 2);
    s := AddOne(s, 3);
    s := AddOne(s, 4);
    s := AddOne(s, 5);
  }

  /** It does happen: five packets are waiting, the producer decides to drop some, and the decoder
      takes all five before the producer's first pop. */
  lemma ProducerCanGetStuck() returns (s: State<int>)
    ensures Reachable(Backlog(), s) && Stuck(s)
  {
    s := FullBacklog();
    StepReachable(Backlog(), s, StartAdd(6));
    s := Apply(s, StartAdd(6));
    StepReachable(Backlog(), s, Look);
    s := Apply(s, Look);
    StepReachable(Backlog(), s, Look);
    s := Apply(s, Look);
    s := DecodeOne(s);
    s := DecodeOne(s);
    s := DecodeOne(s);
    s := DecodeOne(s);
    s := DecodeOne(s);
  }

  // ---- the code ----

  /** The object itself; `log` is the state of the whole system. */
  class AudioDecoder<T> {
    var queue: seq<T>
    ghost var log: State<T>

    ghost predicate Valid()
      reads this
    {
      queue == log.queue
    }

    constructor ()
      ensures Valid() && Init(log)
    {
      queue, log := [], State([], Idle, Ready, [], [], []);
    }

    /** add, when the decoding thread does not come in between: a run of the producer's steps only,
        and a backlog of more than four packets is cut down to its last two first. */
    method Add(packet: T) returns (ghost run: seq<Step<T>>)
      requires Valid() && log.producer.Idle?
      modifies this
      ensures Valid() && log.producer.Idle?
      ensures Legal(Backlog(), old(log), run) && After(Backlog(), old(log), run) == log
      ensures forall step <- run :: step.ByProducer()
      ensures queue == (if |old(queue)| > 4 then old(queue)[|old(queue)| - 2..] else old(queue)) + [packet]
      ensures log.added == old(log.added) + [packet]
      ensures log.decoded == old(log.decoded) && log.decoder == old(log.decoder)
    {
      run := Take([], old(log), StartAdd(packet));
      run := Take(run, old(log), Look);
      if |queue| > MAX_DELAY_LIMIT_COUNT {
        run := DropOld(packet, run, old(log));
      }
      run := Take(run, old(log), PushPacket);
      queue := queue + [packet];
    }

    /** The loop of add. */
    method DropOld(packet: T, ghost before: seq<Step<T>>, ghost from: State<T>) returns (ghost run: seq<Step<T>>)
      requires Valid() && log.producer == TestMore(packet) && |queue| > 2
      requires Legal(Backlog(), from, before) && After(Backlog(), from, before) == log
      requires forall step <- before :: step.ByProducer()
      modifies this
      ensures Valid() && log.producer == Pushing(packet) && queue == old(queue)[|old(queue)| - 2..]
      ensures log.added == old(log.added) && log.decoded == old(log.decoded) && log.decoder == old(log.decoder)
      ensures Legal(Backlog(), from, run) && After(Backlog(), from, run) == log
      ensures forall step <- run :: step.ByProducer()
    {
      ghost var last := queue[|queue| - 2..];
      run := Take(before, from, Look);
      while |queue| > 2
        invariant Valid() && log.producer == if |queue| > 2 then Popping(packet) else Pushing(packet)
        invariant |queue| >= 2 && queue[|queue| - 2..] == last
        invariant log.added == old(log.added) && log.decoded == old(log.decoded) && log.decoder == old(log.decoder)
        invariant Legal(Backlog(), from, run) && After(Backlog(), from, run) == log
        invariant forall step <- run :: step.ByProducer()
      {
        run := DropOne(packet, run, from);
      }
    }

    method DropOne(packet: T, ghost before: seq<Step<T>>, ghost from: State<T>) returns (ghost run: seq<Step<T>>)
      requires Valid() && log.producer == Popping(packet) && queue != []
      requires Legal(Backlog(), from, before) && After(Backlog(), from, before) == log
      requires forall step <- before :: step.ByProducer()
      modifies this
      ensures Valid() && queue == old(queue)[1..]
      ensures log.added == old(log.added) && log.decoded == old(log.decoded) && log.decoder == old(log.decoder)
      ensures log.producer == if |queue| > 2 then Popping(packet) else Pushing(packet)
      ensures Legal(Backlog(), from, run) && After(Backlog(), from, run) == log
      ensures forall step <- run :: step.ByProducer()
    {
      run := Take(before, from, Drop);
      queue := queue[1..];
      run := Take(run, from, Look);
    }

    ghost method Take(run: seq<Step<T>>, from: State<T>, step: Step<T>) returns (longer: seq<Step<T>>)
      requires Legal(Backlog(), from, run) && After(Backlog(), from, run) == log && Enabled(log, step)
      requires step.ByProducer() && forall e <- run :: e.ByProducer()
      modifies this`log
      ensures log == Apply(old(log), step)
      ensures Legal(Backlog(), from, longer) && After(Backlog(), from, longer) == log
      ensures forall e <- longer :: e.ByProducer()
    {
      Extend(Backlog(), from, run, step);
      log := Apply(log, step);
      longer := run + [step];
    }

    /** The pop of the decoding thread, when it does not have to wait. */
    method TakeOldest() returns (packet: T)
      requires Valid() && log.decoder.Ready? && queue != []
      modifies this
      ensures Valid() && log == Apply(old(log), TakePacket)
      ensures packet == old(queue)[0]
      ensures log == old(log).(queue := old(queue)[1..], taken := old(log.taken) + [ToDecode(packet)],
                               decoder := Decoding(packet))
    {
      packet := queue[0];
      queue := queue[1..];
      log := Apply(log, TakePacket);
    }

    /** One turn of the decoding thread, when it does not have to wait: the oldest packet leaves the
        backlog and is decoded. */
    method DecodeOldest() returns (packet: T, ghost run: seq<Step<T>>)
      requires Valid() && log.decoder.Ready? && queue != []
      modifies this
      ensures Valid() && old(queue) == [packet] + queue && log.decoded == old(log.decoded) + [packet]
      ensures log.producer == old(log.producer) && log.decoder.Ready? && log.added == old(log.added)
      ensures Legal(Backlog(), old(log), run) && After(Backlog(), old(log), run) == log
      ensures forall step <- run :: !step.ByProducer()
    {
      packet := TakeOldest();
      log := Apply(log, Decode);
      ghost var last: seq<Step<T>> := [Decode];
      run := [TakePacket] + last;
      assert run[1..] == last && last[1..] == [];
    }
  }
}
